/** What a backup archive contains, when restore_backup accepts one, and the round trip between the two. */
module BackupFormat {
  import opened Wrappers
  import opened FileNames
  import opened Disk

  const MAX_MANIFEST_BYTES := 64 * 1024
  const MAX_CONFIG_FILE_BYTES := 1024 * 1024
  const MAX_CONFIG_TOTAL_BYTES := 16 * 1024 * 1024
  const MAX_AUDIT_BYTES := 2 * 1024 * 1024 * 1024

  datatype Member = Member(name: string, regular: bool, content: Bytes)

  datatype Manifest = Manifest(format: int, configFile: string, configFiles: set<string>)

  /** A parsed configuration, as far as backups look at it: a secret reference that is not a string is None. */
  datatype ConfigRefs = ConfigRefs(auditFile: Option<Path>, secrets: seq<Option<Path>>)

  /** JSON, YAML, SQLite and the configuration loader, as arbitrary functions. */
  datatype Formats = Formats(
    readManifest: Bytes -> Option<Manifest>,
    writeManifest: Manifest -> Bytes,
    readDocument: Bytes -> Option<ConfigRefs>,
    auditSound: Bytes -> bool,
    auditSnapshot: Bytes -> Bytes,
    loads: (Bytes, map<string, Bytes>) -> bool)

  /** Where the installation keeps its files. */
  datatype Site = Site(directory: string, mainName: string, auditFile: Path)

  function ReferencedName(directory: string, secret: Option<Path>): Option<string> {
    match secret
    case Some(Entry(d, n)) => if d == directory && SafeFileName(n) then Some(n) else None
    case _ => None
  }

  /** `_referenced_secret_names`; None is its BackupError. */
  function ReferencedNames(f: Formats, directory: string, config: Bytes): Option<set<string>> {
    match f.readDocument(config)
    case None => None
    case Some(d) =>
      if forall i :: 0 <= i < |d.secrets| ==> ReferencedName(directory, d.secrets[i]).Some?
      then Some(set i | 0 <= i < |d.secrets| :: d.secrets[i].value.name)
      else None
  }

  // ----------------------------------------------------------------- reading

  /** The local variables of the loop over the archive members. */
  datatype Contents = Contents(manifest: Option<Bytes>, config: map<string, Bytes>, audit: Option<Bytes>, total: nat,
                               seen: set<string>)

  const NOTHING := Contents(None, map[], None, 0, {})

  const CONFIG_PREFIX := "config/"
  const AUDIT_MEMBER := "data/audit.sqlite3"

  predicate IsConfigMember(name: string) {
    |name| >= 7 && name[..7] == CONFIG_PREFIX
  }

  /** One turn of that loop; None is a BackupError. */
  function Absorb(c: Contents, m: Member): Option<Contents> {
    var seen := c.seen + {m.name};
    if m.name in c.seen || !m.regular then None
    else if m.name == "manifest.json" then
      if |m.content| > MAX_MANIFEST_BYTES then None else Some(c.(manifest := Some(m.content), seen := seen))
    else if IsConfigMember(m.name) then
      if !SafeFileName(m.name[7..]) || |m.content| > MAX_CONFIG_FILE_BYTES then None
      else if c.total + |m.content| > MAX_CONFIG_TOTAL_BYTES then None
      else Some(c.(config := c.config[m.name[7..] := m.content], total := c.total + |m.content|, seen := seen))
    else if m.name == AUDIT_MEMBER then
      if |m.content| > MAX_AUDIT_BYTES then None else Some(c.(audit := Some(m.content), seen := seen))
    else None
  }

  lemma AbsorbsAudit(c: Contents, m: Member)
    requires Absorb(c, m).Some?
    ensures Absorb(c, m).value.audit == if m.name == AUDIT_MEMBER then Some(m.content) else c.audit
  {
    if m.name == AUDIT_MEMBER {
      assert m.name[0] == 'd' && m.name != "manifest.json";
      assert !IsConfigMember(m.name) by { assert m.name[..7][0] == 'd'; }
    }
  }

  function ReadAll(members: seq<Member>): Option<Contents> {
    if members == [] then Some(NOTHING)
    else
      var before := ReadAll(members[..|members| - 1]);
      if before.None? then None else Absorb(before.value, members[|members| - 1])
  }

  /** The database is read at most once. */
  lemma {:induction false} AuditSeen(members: seq<Member>)
    ensures ReadAll(members).Some? && ReadAll(members).value.audit.Some? ==> AUDIT_MEMBER in ReadAll(members).value.seen
  {
    if members == [] {
    } else {
      var n := |members| - 1;
      AuditSeen(members[..n]);
      if ReadAll(members).Some? { AbsorbsAudit(ReadAll(members[..n]).value, members[n]); }
    }
  }

  lemma {:induction false} ReadAllPrefix(members: seq<Member>, k: nat)
    requires k <= |members| && ReadAll(members).Some?
    ensures ReadAll(members[..k]).Some?
    decreases |members|
  {
    if k < |members| {
      ReadAllPrefix(members[..|members| - 1], k);
      assert members[..|members| - 1][..k] == members[..k];
    } else {
      assert members[..k] == members;
    }
  }

  predicate SecretsPresent(site: Site, d: ConfigRefs, config: map<string, Bytes>) {
    forall i :: 0 <= i < |d.secrets| ==>
      match d.secrets[i]
      case Some(Entry(dir, n)) => dir == site.directory && n in config
      case _ => false
  }

  /** The manifest check, the database check and `_validate_candidate`. */
  predicate Acceptable(f: Formats, site: Site, c: Contents) {
    && c.manifest.Some?
    && c.audit.Some?
    && site.mainName in c.config
    && f.readManifest(c.manifest.value) == Some(Manifest(1, site.mainName, c.config.Keys))
    && f.auditSound(c.audit.value)
    && var document := f.readDocument(c.config[site.mainName]);
    && document.Some?
    && document.value.auditFile == Some(site.auditFile)
    && SecretsPresent(site, document.value, c.config)
    && f.loads(c.config[site.mainName], c.config)
  }

  /** No destination is named twice: the audit database is not also one of the configuration files. */
  predicate NoOverlap(site: Site, c: Contents) {
    forall n :: n in c.config ==> Entry(site.directory, n) != site.auditFile
  }

  /** What the accepted configuration refers to is in the archive, hence installed with it. */
  lemma AcceptedSecretsArchived(f: Formats, site: Site, c: Contents)
    requires Acceptable(f, site, c)
    requires forall n :: n in c.config ==> SafeFileName(n)
    ensures ReferencedNames(f, site.directory, c.config[site.mainName]).Some?
    ensures ReferencedNames(f, site.directory, c.config[site.mainName]).value <= c.config.Keys
  {
    var d := f.readDocument(c.config[site.mainName]).value;
    forall i | 0 <= i < |d.secrets|
      ensures ReferencedName(site.directory, d.secrets[i]).Some? && d.secrets[i].value.name in c.config
    {
    }
  }

  lemma {:induction false} ReadNamesAreSafe(members: seq<Member>)
    requires ReadAll(members).Some?
    ensures forall n :: n in ReadAll(members).value.config ==> SafeFileName(n)
  {
    if members == [] {
    } else {
      ReadNamesAreSafe(members[..|members| - 1]);
    }
  }

  // ---------------------------------------------------------------- restored

  predicate Prunable(directory: string, referenced: set<string>, p: Path) {
    p.Entry? && p.directory == directory && ManagedSecretName(p.name) && p.name !in referenced
  }

  /** Only unreferenced managed secrets of the directory have disappeared. */
  ghost predicate PrunedTo(before: Files, after: Files, directory: string, referenced: set<string>) {
    forall p: Path :: Same(before, after, p) || (p !in after && Prunable(directory, referenced, p))
  }

  /** The bytes a path has right after the last replacement. */
  function Target(before: Files, site: Site, c: Contents, p: Path): Option<Bytes>
    requires c.audit.Some?
  {
    if p == site.auditFile then c.audit
    else if p.Entry? && p.directory == site.directory && p.name in c.config then Some(c.config[p.name])
    else if p in before then Some(before[p]) else None
  }

  /** The result of a successful restore: every target has its archived bytes, except where the prune removed it. */
  ghost predicate RestoredTo(f: Formats, site: Site, c: Contents, before: Files, after: Files)
    requires Acceptable(f, site, c)
  {
    var referenced := ReferencedNames(f, site.directory, c.config[site.mainName]);
    referenced.Some? &&
    forall p: Path :: p.Entry? ==>
      || (if p in after then Target(before, site, c, p) == Some(after[p]) else Target(before, site, c, p) == None)
      || (p !in after && Prunable(site.directory, referenced.value, p))
  }

  // ----------------------------------------------------------------- writing

  /**
    The files `create_backup` archives: the main configuration and the safe names, without unreferenced managed
    secrets.
  */
  predicate Archived(files: Files, site: Site, referenced: set<string>, name: string) {
    && Entry(site.directory, name) in files
    && (name == site.mainName || (SafeFileName(name) && (ManagedSecretName(name) ==> name in referenced)))
  }

  ghost predicate IsConfigSet(files: Files, site: Site, referenced: set<string>, config: map<string, Bytes>) {
    forall n :: (n in config <==> Archived(files, site, referenced, n)) &&
                (n in config ==> Entry(site.directory, n) in files && config[n] == files[Entry(site.directory, n)])
  }

  function ConfigMembers(names: seq<string>, config: map<string, Bytes>): seq<Member>
    requires forall i :: 0 <= i < |names| ==> names[i] in config
  {
    seq(|names|, i requires 0 <= i < |names| => ConfigMember(names[i], config[names[i]]))
  }

  ghost predicate Enumerates(names: seq<string>, config: map<string, Bytes>) {
    && (forall i :: 0 <= i < |names| ==> names[i] in config)
    && (forall n :: n in config ==> n in names)
    && (forall i, j :: 0 <= i < j < |names| ==> names[i] != names[j])
  }

  function ArchiveOf(f: Formats, site: Site, names: seq<string>, config: map<string, Bytes>, audit: Bytes): seq<Member>
    requires forall i :: 0 <= i < |names| ==> names[i] in config
  {
    [Member("manifest.json", true, f.writeManifest(Manifest(1, site.mainName, config.Keys)))]
    + ConfigMembers(names, config)
    + [Member(AUDIT_MEMBER, true, audit)]
  }

  /** Total size of the archived configuration files, as both sides count it. */
  function TotalSize(names: seq<string>, config: map<string, Bytes>): nat
    requires forall i :: 0 <= i < |names| ==> names[i] in config
  {
    if names == [] then 0
    else TotalSize(names[..|names| - 1], config) + |config[names[|names| - 1]]|
  }

  lemma {:induction false} TotalSizeOfLarger(names: seq<string>, config: map<string, Bytes>, larger: map<string, Bytes>)
    requires forall i :: 0 <= i < |names| ==>
              names[i] in config && names[i] in larger && larger[names[i]] == config[names[i]]
    ensures TotalSize(names, larger) == TotalSize(names, config)
  {
    if names == [] {
    } else {
      TotalSizeOfLarger(names[..|names| - 1], config, larger);
    }
  }

  lemma TotalSizeOneMore(names: seq<string>, config: map<string, Bytes>, name: string, content: Bytes)
    requires (forall i :: 0 <= i < |names| ==> names[i] in config) && name !in config
    ensures TotalSize(names + [name], config[name := content]) == TotalSize(names, config) + |content|
  {
    TotalSizeOfLarger(names, config, config[name := content]);
    assert (names + [name])[..|names|] == names;
  }

  /** The limits create_backup enforces on what it archives. */
  ghost predicate WithinLimits(names: seq<string>, config: map<string, Bytes>, audit: Bytes)
    requires forall i :: 0 <= i < |names| ==> names[i] in config
  {
    && (forall n :: n in config ==> |config[n]| <= MAX_CONFIG_FILE_BYTES)
    && TotalSize(names, config) <= MAX_CONFIG_TOTAL_BYTES
    && |audit| <= MAX_AUDIT_BYTES
  }

  /** Some of the files to be archived, in some order. */
  ghost predicate SomeArchived(files: Files, site: Site, referenced: set<string>, names: seq<string>,
                               config: map<string, Bytes>)
  {
    && Enumerates(names, config)
    && forall n :: n in config ==> Archived(files, site, referenced, n) && config[n] == files[Entry(site.directory, n)]
  }

  ghost predicate FilesFit(files: Files, site: Site, referenced: set<string>) {
    && (forall n :: Archived(files, site, referenced, n) ==> |files[Entry(site.directory, n)]| <= MAX_CONFIG_FILE_BYTES)
    && (forall names, config :: SomeArchived(files, site, referenced, names, config) ==>
          TotalSize(names, config) <= MAX_CONFIG_TOTAL_BYTES)
  }

  /** Everything create_backup needs is there and within its limits. */
  ghost predicate Archivable(f: Formats, site: Site, files: Files) {
    var main := Entry(site.directory, site.mainName);
    && main in files
    && ReferencedNames(f, site.directory, files[main]).Some?
    && FilesFit(files, site, ReferencedNames(f, site.directory, files[main]).value)
    && site.auditFile in files && |f.auditSnapshot(files[site.auditFile])| <= MAX_AUDIT_BYTES
  }

  // --------------------------------------------------------------- round trip

  function ConfigMember(name: string, content: Bytes): Member {
    Member(CONFIG_PREFIX + name, true, content)
  }

  lemma AbsorbsConfigMember(c: Contents, name: string, content: Bytes)
    ensures var after := Absorb(c, ConfigMember(name, content));
            after.Some? ==>
              && after.value.manifest == c.manifest
              && after.value.audit == c.audit
              && after.value.config == c.config[name := content]
  {
    var m := ConfigMember(name, content);
    assert m.name[..7] == CONFIG_PREFIX && m.name[7..] == name && m.name[0] == 'c';
  }

  lemma ReadsOneMore(members: seq<Member>, m: Member)
    ensures ReadAll(members + [m]) == if ReadAll(members).None? then None else Absorb(ReadAll(members).value, m)
  {
    assert (members + [m])[..|members|] == members;
  }

  lemma TakesOneMore(head: Member, body: seq<Member>, k: nat)
    requires 0 < k <= |body|
    ensures [head] + body[..k] == [head] + body[..k - 1] + [body[k - 1]]
  {
  }

  /** The head and the first k configuration files have been read. */
  predicate Taken(c: Contents, head: Member, names: seq<string>, config: map<string, Bytes>, k: nat)
    requires (forall i :: 0 <= i < |names| ==> names[i] in config) && k <= |names|
  {
    && c.manifest == Some(head.content)
    && c.audit.None?
    && c.config == map n | n in names[..k] :: config[n]
  }

  lemma TakenOneMore(c: Contents, head: Member, names: seq<string>, config: map<string, Bytes>, k: nat)
    requires (forall i :: 0 <= i < |names| ==> names[i] in config) && 0 < k <= |names|
    requires Taken(c, head, names, config, k - 1)
    ensures var after := Absorb(c, ConfigMember(names[k - 1], config[names[k - 1]]));
            after.Some? ==> Taken(after.value, head, names, config, k)
  {
    AbsorbsConfigMember(c, names[k - 1], config[names[k - 1]]);
    assert names[..k] == names[..k - 1] + [names[k - 1]];
  }

  lemma {:induction false} ReadsConfigMembers(head: Member, names: seq<string>, config: map<string, Bytes>, k: nat)
    requires (forall i :: 0 <= i < |names| ==> names[i] in config) && k <= |names|
    requires head.name == "manifest.json"
    ensures var read := ReadAll([head] + ConfigMembers(names, config)[..k]);
            read.Some? ==> Taken(read.value, head, names, config, k)
  {
    var body := ConfigMembers(names, config);
    if k == 0 {
      ReadsOneMore([], head);
      assert [head] + body[..k] == [] + [head];
    } else {
      ReadsConfigMembers(head, names, config, k - 1);
      var m := ConfigMember(names[k - 1], config[names[k - 1]]);
      TakesOneMore(head, body, k);
      ReadsOneMore([head] + body[..k - 1], m);
      var before := ReadAll([head] + body[..k - 1]);
      if before.Some? { TakenOneMore(before.value, head, names, config, k); }
    }
  }

  /** Reading an archive gives back the configuration files and the database that were put into it. */
  lemma ReadsArchive(f: Formats, site: Site, names: seq<string>, config: map<string, Bytes>, audit: Bytes)
    requires Enumerates(names, config)
    requires ReadAll(ArchiveOf(f, site, names, config, audit)).Some?
    ensures var c := ReadAll(ArchiveOf(f, site, names, config, audit)).value;
            c.config == config && c.audit == Some(audit)
            && c.manifest == Some(f.writeManifest(Manifest(1, site.mainName, config.Keys)))
  {
    var head := Member("manifest.json", true, f.writeManifest(Manifest(1, site.mainName, config.Keys)));
    var body := ConfigMembers(names, config);
    var m := Member(AUDIT_MEMBER, true, audit);
    assert ArchiveOf(f, site, names, config, audit) == [head] + body + [m];
    ReadsOneMore([head] + body, m);
    assert body[..|names|] == body && names[..|names|] == names;
    ReadsConfigMembers(head, names, config, |names|);
    assert (map n | n in names :: config[n]) == config;
    assert m.name[0] == 'd';
  }

  /**
    Backup round trip.  If an archive made from `source` is accepted and restored over `before`, every archived
    name has its archived bytes again, with one exception for the main configuration: the prune may remove it when
    its own file name is a managed secret name that the configuration does not refer to.  Other files change only
    by losing unreferenced managed secrets.
  */
  lemma BackupRoundTrip(f: Formats, site: Site, source: Files, referenced: set<string>, names: seq<string>,
                        config: map<string, Bytes>, audit: Bytes, before: Files, after: Files)
    requires Entry(site.directory, site.mainName) in source
    requires ReferencedNames(f, site.directory, source[Entry(site.directory, site.mainName)]) == Some(referenced)
    requires IsConfigSet(source, site, referenced, config) && Enumerates(names, config)
    requires ReadAll(ArchiveOf(f, site, names, config, audit)).Some?
    requires var c := ReadAll(ArchiveOf(f, site, names, config, audit)).value;
             Acceptable(f, site, c) && NoOverlap(site, c) && RestoredTo(f, site, c, before, after)
    ensures forall n :: n in config && n != site.mainName ==>
              Entry(site.directory, n) in after && after[Entry(site.directory, n)] == source[Entry(site.directory, n)]
    ensures var main := Entry(site.directory, site.mainName);
            if main in after then after[main] == source[main] else Prunable(site.directory, referenced, main)
    ensures site.auditFile.Entry? ==>
              if site.auditFile in after then after[site.auditFile] == audit
              else Prunable(site.directory, referenced, site.auditFile)
    ensures forall p: Path ::
              p.Entry? && p != site.auditFile && !(p.directory == site.directory && p.name in config) ==>
              Same(before, after, p) || (p !in after && Prunable(site.directory, referenced, p))
  {
    ReadsArchive(f, site, names, config, audit);
    var main := Entry(site.directory, site.mainName);
    assert Archived(source, site, referenced, site.mainName) && config[site.mainName] == source[main];
    forall n | n in config
      ensures var p := Entry(site.directory, n);
              if p in after then after[p] == source[p]
              else n == site.mainName && Prunable(site.directory, referenced, p)
    {
      var p := Entry(site.directory, n);
      assert Archived(source, site, referenced, n);
      assert p != site.auditFile;
    }
  }

  lemma {:induction false} TotalSizeGrows(names: seq<string>, config: map<string, Bytes>, k: nat)
    requires (forall i :: 0 <= i < |names| ==> names[i] in config) && k <= |names|
    ensures TotalSize(names[..k], config) <= TotalSize(names, config)
    decreases |names|
  {
    if k < |names| {
      TotalSizeGrows(names[..|names| - 1], config, k);
      assert names[..|names| - 1][..k] == names[..k];
    } else {
      assert names[..k] == names;
    }
  }

  /** What the reader has seen and counted after k configuration members. */
  ghost predicate ReadSoFar(c: Contents, names: seq<string>, config: map<string, Bytes>, k: nat)
    requires (forall i :: 0 <= i < |names| ==> names[i] in config) && k <= |names|
  {
    && c.total == TotalSize(names[..k], config)
    && AUDIT_MEMBER !in c.seen
    && forall i :: k <= i < |names| ==> ConfigMember(names[i], config[names[i]]).name !in c.seen
  }

  lemma AbsorbsSafeMember(c: Contents, names: seq<string>, config: map<string, Bytes>, k: nat)
    requires forall i :: 0 <= i < |names| ==> names[i] in config
    requires forall i, j :: 0 <= i < j < |names| ==> names[i] != names[j]
    requires 0 < k <= |names| && SafeFileName(names[k - 1]) && |config[names[k - 1]]| <= MAX_CONFIG_FILE_BYTES
    requires TotalSize(names, config) <= MAX_CONFIG_TOTAL_BYTES
    requires ReadSoFar(c, names, config, k - 1)
    ensures var after := Absorb(c, ConfigMember(names[k - 1], config[names[k - 1]]));
            after.Some? && ReadSoFar(after.value, names, config, k)
  {
    var name := names[k - 1];
    var m := ConfigMember(name, config[name]);
    assert m.name[..7] == CONFIG_PREFIX && m.name[7..] == name && m.name[0] == 'c';
    assert names[..k][..k - 1] == names[..k - 1] && names[..k][k - 1] == name;
    TotalSizeGrows(names, config, k);
    forall i | k <= i < |names| ensures ConfigMember(names[i], config[names[i]]).name != m.name {
      assert ConfigMember(names[i], config[names[i]]).name[7..] == names[i];
    }
    assert AUDIT_MEMBER != m.name by { assert AUDIT_MEMBER[0] == 'd'; }
  }

  lemma {:induction false} ReadsSafeMembers(head: Member, names: seq<string>, config: map<string, Bytes>, k: nat)
    requires forall i :: 0 <= i < |names| ==> names[i] in config
    requires forall i, j :: 0 <= i < j < |names| ==> names[i] != names[j]
    requires forall i :: 0 <= i < |names| ==> SafeFileName(names[i]) && |config[names[i]]| <= MAX_CONFIG_FILE_BYTES
    requires TotalSize(names, config) <= MAX_CONFIG_TOTAL_BYTES && k <= |names|
    requires head.name == "manifest.json" && head.regular && |head.content| <= MAX_MANIFEST_BYTES
    ensures var read := ReadAll([head] + ConfigMembers(names, config)[..k]);
            read.Some? && ReadSoFar(read.value, names, config, k)
  {
    var body := ConfigMembers(names, config);
    if k == 0 {
      assert [head] + body[..k] == [head];
      ReadsHead(head, names, config);
    } else {
      var before := [head] + body[..k - 1];
      ReadsSafeMembers(head, names, config, k - 1);
      var m := ConfigMember(names[k - 1], config[names[k - 1]]);
      TakesOneMore(head, body, k);
      ReadsOneMore(before, m);
      AbsorbsSafeMember(ReadAll(before).value, names, config, k);
    }
  }

  lemma ReadsHead(head: Member, names: seq<string>, config: map<string, Bytes>)
    requires forall i :: 0 <= i < |names| ==> names[i] in config
    requires head.name == "manifest.json" && head.regular && |head.content| <= MAX_MANIFEST_BYTES
    ensures ReadAll([head]).Some? && ReadSoFar(ReadAll([head]).value, names, config, 0)
  {
    ReadsOneMore([], head);
    assert [head] == [] + [head];
    assert head.name[0] == 'm' && AUDIT_MEMBER[0] == 'd';
    forall i | 0 <= i < |names| ensures ConfigMember(names[i], config[names[i]]).name != head.name {
      assert ConfigMember(names[i], config[names[i]]).name[0] == 'c';
    }
    assert names[..0] == [];
  }

  /**
    An archive that create_backup made passes the size and name checks of restore_backup exactly when its
    manifest fits into 64 KiB, provided the name of the main configuration is a safe one; create checks neither.
  */
  lemma ArchiveReadable(f: Formats, site: Site, files: Files, referenced: set<string>, names: seq<string>,
                        config: map<string, Bytes>, audit: Bytes)
    requires IsConfigSet(files, site, referenced, config) && Enumerates(names, config) && site.mainName in config
    requires WithinLimits(names, config, audit)
    ensures ReadAll(ArchiveOf(f, site, names, config, audit)).Some? <==>
              SafeFileName(site.mainName) &&
              |f.writeManifest(Manifest(1, site.mainName, config.Keys))| <= MAX_MANIFEST_BYTES
  {
    var head := Member("manifest.json", true, f.writeManifest(Manifest(1, site.mainName, config.Keys)));
    var body := ConfigMembers(names, config);
    var m := Member(AUDIT_MEMBER, true, audit);
    var members := ArchiveOf(f, site, names, config, audit);
    assert members == [head] + body + [m] && body[..|names|] == body;
    if SafeFileName(site.mainName) && |head.content| <= MAX_MANIFEST_BYTES {
      forall i | 0 <= i < |names| ensures SafeFileName(names[i]) {
        assert Archived(files, site, referenced, names[i]);
      }
      ReadsSafeMembers(head, names, config, |names|);
      ReadsOneMore([head] + body, m);
      assert m.name[0] == 'd';
      assert !IsConfigMember(m.name) by { assert m.name[..7][0] == 'd'; }
    } else if ReadAll(members).Some? {
      ReadAllPrefix(members, 1);
      assert members[..1] == [] + [head];
      ReadsOneMore([], head);
      ReadsArchive(f, site, names, config, audit);
      ReadNamesAreSafe(members);
    }
  }
}
