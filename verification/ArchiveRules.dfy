/** What restore_backup accepts and what it leaves behind, told from the members of the archive alone. */
module ArchiveRules {
  import opened Wrappers
  import opened Disk
  import opened FileNames
  import opened BackupFormat
  import opened RestorePlan

  // ------------------------------------------------------------ the members

  predicate Carries(members: seq<Member>, name: string, content: Bytes) {
    exists i :: 0 <= i < |members| && members[i].name == name && members[i].content == content
  }

  predicate Has(members: seq<Member>, name: string) {
    exists i :: 0 <= i < |members| && members[i].name == name
  }

  predicate IsConfig(name: string) {
    |name| > 7 && name[..7] == "config/" && SafeFileName(name[7..])
  }

  /** The three kinds of member, each with its size limit: 64 KiB, 1 MiB, 2 GiB. */
  predicate Allowed(m: Member) {
    && m.regular
    && (|| (m.name == "manifest.json" && |m.content| <= 65_536)
        || (IsConfig(m.name) && |m.content| <= 1_048_576)
        || (m.name == "data/audit.sqlite3" && |m.content| <= 2_147_483_648))
  }

  /** The bytes of all configuration files together. */
  function ConfigSize(members: seq<Member>): nat {
    if members == [] then 0
    else
      var m := members[|members| - 1];
      ConfigSize(members[..|members| - 1]) + if IsConfig(m.name) then |m.content| else 0
  }

  predicate NamesDiffer(members: seq<Member>) {
    forall i, j :: 0 <= i < j < |members| ==> members[i].name != members[j].name
  }

  /** Each member allowed, none twice, and at most 16 MiB of configuration. */
  predicate Readable(members: seq<Member>) {
    && (forall i :: 0 <= i < |members| ==> Allowed(members[i]))
    && NamesDiffer(members)
    && ConfigSize(members) <= 16_777_216
  }

  /** What the reader knows after these members. */
  ghost predicate Means(c: Contents, members: seq<Member>) {
    && (forall x :: c.manifest == Some(x) <==> Carries(members, "manifest.json", x))
    && (forall x :: c.audit == Some(x) <==> Carries(members, "data/audit.sqlite3", x))
    && IsConfigOf(c.config, members)
    && (forall n :: n in c.seen <==> Has(members, n))
    && c.total == ConfigSize(members)
  }

  ghost predicate IsConfigOf(config: map<string, Bytes>, members: seq<Member>) {
    forall n, x :: n in config && config[n] == x <==> Carries(members, "config/" + n, x)
  }

  lemma CarriesMore(members: seq<Member>, m: Member, name: string, x: Bytes)
    ensures Carries(members + [m], name, x) <==> Carries(members, name, x) || (m.name == name && m.content == x)
    ensures Has(members + [m], name) <==> Has(members, name) || m.name == name
  {
    var more := members + [m];
    if Carries(members, name, x) {
      var i :| 0 <= i < |members| && members[i].name == name && members[i].content == x;
      assert more[i] == members[i];
    }
    if Has(members, name) {
      var i :| 0 <= i < |members| && members[i].name == name;
      assert more[i] == members[i];
    }
    assert more[|members|] == m;
  }

  lemma ReadableMore(members: seq<Member>, m: Member)
    ensures Readable(members + [m]) <==>
              && Readable(members) && Allowed(m) && !Has(members, m.name)
              && ConfigSize(members) + (if IsConfig(m.name) then |m.content| else 0) <= 16_777_216
  {
    var more := members + [m];
    assert more[..|members|] == members && more[|members|] == m;
    assert forall i :: 0 <= i < |members| ==> more[i] == members[i];
  }

  lemma KindsDiffer(n: string)
    ensures "config/" + n != "manifest.json" && "config/" + n != "data/audit.sqlite3"
    ensures !IsConfigMember("manifest.json") && !IsConfigMember("data/audit.sqlite3")
    ensures !IsConfig("manifest.json") && !IsConfig("data/audit.sqlite3") && "manifest.json" != "data/audit.sqlite3"
  {
    assert ("config/" + n)[0] == 'c' && "manifest.json"[0] == 'm' && "data/audit.sqlite3"[0] == 'd';
    assert "manifest.json"[..7][0] == 'm' && "data/audit.sqlite3"[..7][0] == 'd';
  }

  /** One turn of the reader's loop goes on exactly with an allowed, new member within the total. */
  lemma AbsorbsIff(c: Contents, members: seq<Member>, m: Member)
    requires Means(c, members)
    ensures Absorb(c, m).Some? <==>
              && Allowed(m) && !Has(members, m.name)
              && (IsConfig(m.name) ==> ConfigSize(members) + |m.content| <= 16_777_216)
  {
    KindsDiffer("");
  }

  /** The reader then has the contents of that member, where it belongs, and of the others what it had. */
  lemma AbsorbMeans(c: Contents, members: seq<Member>, m: Member)
    requires Means(c, members) && Absorb(c, m).Some?
    ensures Means(Absorb(c, m).value, members + [m])
  {
    var after, more := Absorb(c, m).value, members + [m];
    KindsDiffer("");
    AbsorbsIff(c, members, m);
    forall x ensures after.manifest == Some(x) <==> Carries(more, "manifest.json", x) {
      CarriesMore(members, m, "manifest.json", x);
    }
    forall x ensures after.audit == Some(x) <==> Carries(more, "data/audit.sqlite3", x) {
      CarriesMore(members, m, "data/audit.sqlite3", x);
    }
    forall n, x ensures n in after.config && after.config[n] == x <==> Carries(more, "config/" + n, x) {
      CarriesMore(members, m, "config/" + n, x);
      ConfigNames(m.name, n);
    }
    forall n ensures n in after.seen <==> Has(more, n) {
      CarriesMore(members, m, n, []);
    }
    assert more[..|members|] == members;
  }

  lemma ConfigNames(name: string, n: string)
    ensures "config/" + n == name <==> IsConfigMember(name) && name[7..] == n
    ensures "config/" + n != "manifest.json" && "config/" + n != "data/audit.sqlite3"
  {
    KindsDiffer(n);
    assert ("config/" + n)[..7] == "config/" && ("config/" + n)[7..] == n;
    if IsConfigMember(name) { assert name == name[..7] + name[7..]; }
  }

  lemma {:induction false} ReadsIff(members: seq<Member>)
    ensures ReadAll(members).Some? <==> Readable(members)
    ensures ReadAll(members).Some? ==> Means(ReadAll(members).value, members)
  {
    if members == [] {
    } else {
      var rest, m := members[..|members| - 1], members[|members| - 1];
      assert members == rest + [m];
      ReadsIff(rest);
      ReadableMore(rest, m);
      if ReadAll(rest).Some? {
        AbsorbsIff(ReadAll(rest).value, rest, m);
        if Absorb(ReadAll(rest).value, m).Some? { AbsorbMeans(ReadAll(rest).value, rest, m); }
      }
    }
  }

  // ------------------------------------------------------------- acceptance

  /** The manifest is of format 1, names this main configuration, and lists exactly the files archived. */
  ghost predicate ManifestFits(f: Formats, site: Site, members: seq<Member>, manifest: Bytes) {
    var m := f.readManifest(manifest);
    && m.Some? && m.value.format == 1 && m.value.configFile == site.mainName
    && forall n :: n in m.value.configFiles <==> Has(members, "config/" + n)
  }

  /** The configuration parses, names this installation's database, and every secret it names is archived with it. */
  ghost predicate DocumentFits(f: Formats, site: Site, members: seq<Member>, main: Bytes) {
    var d := f.readDocument(main);
    && d.Some? && d.value.auditFile == Some(site.auditFile)
    && forall i :: 0 <= i < |d.value.secrets| ==> SecretArchived(site, members, d.value.secrets[i])
  }

  ghost predicate SecretArchived(site: Site, members: seq<Member>, secret: Option<Path>) {
    && secret.Some? && secret.value.Entry? && secret.value.directory == site.directory
    && Has(members, "config/" + secret.value.name)
  }

  /** No configuration file of the archive would be installed over the database. */
  ghost predicate DatabaseApart(site: Site, members: seq<Member>) {
    forall n :: Has(members, "config/" + n) ==> Entry(site.directory, n) != site.auditFile
  }

  ghost predicate PartsFit(f: Formats, site: Site, members: seq<Member>, manifest: Bytes, config: map<string, Bytes>,
                           audit: Bytes)
  {
    && Carries(members, "manifest.json", manifest) && ManifestFits(f, site, members, manifest)
    && Carries(members, "data/audit.sqlite3", audit) && f.auditSound(audit)
    && IsConfigOf(config, members) && site.mainName in config
    && DocumentFits(f, site, members, config[site.mainName])
    && f.loads(config[site.mainName], config)
  }

  /** Everything a restore demands of an archive, in terms of its members. */
  ghost predicate GoodArchive(f: Formats, site: Site, members: seq<Member>) {
    && Readable(members) && DatabaseApart(site, members)
    && exists manifest, config, audit :: PartsFit(f, site, members, manifest, config, audit)
  }

  lemma CarriesHas(members: seq<Member>, name: string)
    ensures Has(members, name) <==> exists x :: Carries(members, name, x)
  {
    if Has(members, name) {
      var i :| 0 <= i < |members| && members[i].name == name;
      assert Carries(members, name, members[i].content);
    }
  }

  lemma ArchivedNames(config: map<string, Bytes>, members: seq<Member>, n: string)
    requires IsConfigOf(config, members)
    ensures n in config <==> Has(members, "config/" + n)
  {
    CarriesHas(members, "config/" + n);
    if n in config { assert Carries(members, "config/" + n, config[n]); }
  }

  lemma OneConfig(a: map<string, Bytes>, b: map<string, Bytes>, members: seq<Member>)
    requires IsConfigOf(a, members) && IsConfigOf(b, members)
    ensures a == b
  {
    forall n ensures n in a <==> n in b {
      ArchivedNames(a, members, n);
      ArchivedNames(b, members, n);
    }
    forall n | n in a ensures a[n] == b[n] {
      assert Carries(members, "config/" + n, a[n]);
    }
  }

  lemma ManifestIff(f: Formats, site: Site, c: Contents, members: seq<Member>, manifest: Bytes)
    requires Means(c, members)
    ensures ManifestFits(f, site, members, manifest) <==>
              f.readManifest(manifest) == Some(Manifest(1, site.mainName, c.config.Keys))
  {
    forall n ensures n in c.config.Keys <==> Has(members, "config/" + n) {
      ArchivedNames(c.config, members, n);
    }
    var m := f.readManifest(manifest);
    if ManifestFits(f, site, members, manifest) { assert m.value.configFiles == c.config.Keys; }
  }

  lemma DocumentIff(f: Formats, site: Site, c: Contents, members: seq<Member>, main: Bytes)
    requires Means(c, members)
    ensures var d := f.readDocument(main);
            DocumentFits(f, site, members, main) <==>
              d.Some? && d.value.auditFile == Some(site.auditFile) && SecretsPresent(site, d.value, c.config)
  {
    var d := f.readDocument(main);
    if d.Some? {
      forall i | 0 <= i < |d.value.secrets| && d.value.secrets[i].Some? && d.value.secrets[i].value.Entry?
        ensures d.value.secrets[i].value.name in c.config <==> Has(members, "config/" + d.value.secrets[i].value.name)
      {
        ArchivedNames(c.config, members, d.value.secrets[i].value.name);
      }
    }
  }

  lemma OverlapIff(site: Site, c: Contents, members: seq<Member>)
    requires Means(c, members)
    ensures NoOverlap(site, c) <==> DatabaseApart(site, members)
  {
    forall n ensures n in c.config <==> Has(members, "config/" + n) {
      ArchivedNames(c.config, members, n);
    }
  }

  lemma AcceptableIff(f: Formats, site: Site, c: Contents, members: seq<Member>)
    requires Means(c, members)
    ensures Acceptable(f, site, c) <==> exists manifest, config, audit ::
                                          PartsFit(f, site, members, manifest, config, audit)
  {
    if Acceptable(f, site, c) {
      ManifestIff(f, site, c, members, c.manifest.value);
      DocumentIff(f, site, c, members, c.config[site.mainName]);
      assert PartsFit(f, site, members, c.manifest.value, c.config, c.audit.value);
    }
    if manifest, config, audit :| PartsFit(f, site, members, manifest, config, audit) {
      OneConfig(c.config, config, members);
      assert c.manifest == Some(manifest) && c.audit == Some(audit);
      ManifestIff(f, site, c, members, manifest);
      DocumentIff(f, site, c, members, c.config[site.mainName]);
    }
  }

  /** The checks of restore_backup accept exactly the good archives. */
  lemma AcceptedIff(f: Formats, site: Site, members: seq<Member>)
    ensures Accepted(f, site, members) <==> GoodArchive(f, site, members)
  {
    ReadsIff(members);
    if Readable(members) {
      AcceptableIff(f, site, ReadAll(members).value, members);
      OverlapIff(site, ReadAll(members).value, members);
    }
  }

  // ---------------------------------------------------------------- outcome

  /** The archive has these bytes for this path. */
  predicate PutsBack(site: Site, members: seq<Member>, p: Path, x: Bytes) {
    || (p == site.auditFile && Carries(members, "data/audit.sqlite3", x))
    || (p.Entry? && p.directory == site.directory && Carries(members, "config/" + p.name, x))
  }

  /** A managed secret that no reference of the archived configuration names. */
  ghost predicate Unneeded(f: Formats, site: Site, members: seq<Member>, p: Path) {
    && p.Entry? && p.directory == site.directory && ManagedSecretName(p.name)
    && forall main :: Carries(members, "config/" + site.mainName, main) && f.readDocument(main).Some? ==>
                        Some(p) !in f.readDocument(main).value.secrets
  }

  ghost predicate PathRestored(f: Formats, site: Site, members: seq<Member>, before: Files, after: Files, p: Path) {
    || (p !in after && Unneeded(f, site, members, p))
    || (p in after && PutsBack(site, members, p, after[p]))
    || (Same(before, after, p) && forall x :: !PutsBack(site, members, p, x))
  }

  /**
    Every archived file has its archived bytes and every other file is as it was, except that unneeded managed secrets
    may be gone.
  */
  ghost predicate AllRestored(f: Formats, site: Site, members: seq<Member>, before: Files, after: Files) {
    forall p: Path :: p.Entry? ==> PathRestored(f, site, members, before, after, p)
  }

  lemma UnneededIff(f: Formats, site: Site, members: seq<Member>, p: Path)
    requires Accepted(f, site, members)
    ensures var referenced := ReferencedNames(f, site.directory, ReadAll(members).value.config[site.mainName]);
            referenced.Some? && (Prunable(site.directory, referenced.value, p) <==> Unneeded(f, site, members, p))
  {
    var c := ReadAll(members).value;
    var main := c.config[site.mainName];
    ReadsIff(members);
    ReadNamesAreSafe(members);
    AcceptedSecretsArchived(f, site, c);
    var d := f.readDocument(main).value;
    assert Carries(members, "config/" + site.mainName, main);
    assert forall x :: Carries(members, "config/" + site.mainName, x) ==> x == main;
    forall n
      ensures n in ReferencedNames(f, site.directory, main).value <==> Some(Entry(site.directory, n)) in d.secrets
    {
      assert forall i :: 0 <= i < |d.secrets| ==> ReferencedName(site.directory, d.secrets[i]).Some?;
    }
  }

  lemma TargetIff(site: Site, c: Contents, members: seq<Member>, before: Files, after: Files, p: Path)
    requires Means(c, members) && c.audit.Some? && p.Entry? && DatabaseApart(site, members)
    ensures Target(before, site, c, p) == (if p in after then Some(after[p]) else None) <==>
              || (p in after && PutsBack(site, members, p, after[p]))
              || (Same(before, after, p) && forall x :: !PutsBack(site, members, p, x))
  {
    if p == site.auditFile {
      assert PutsBack(site, members, p, c.audit.value);
      if p.directory == site.directory { CarriesHas(members, "config/" + p.name); }
    } else if p.directory == site.directory {
      ArchivedNames(c.config, members, p.name);
      if p.name in c.config { assert PutsBack(site, members, p, c.config[p.name]); }
      CarriesHas(members, "config/" + p.name);
    }
  }

  ghost predicate AsTold(f: Formats, site: Site, c: Contents, before: Files, after: Files, p: Path)
    requires Acceptable(f, site, c)
    requires ReferencedNames(f, site.directory, c.config[site.mainName]).Some?
  {
    || (if p in after then Target(before, site, c, p) == Some(after[p]) else Target(before, site, c, p) == None)
    || (p !in after &&
        Prunable(site.directory, ReferencedNames(f, site.directory, c.config[site.mainName]).value, p))
  }

  lemma PathIff(f: Formats, site: Site, members: seq<Member>, before: Files, after: Files, p: Path)
    requires Accepted(f, site, members) && p.Entry?
    requires ReferencedNames(f, site.directory, ReadAll(members).value.config[site.mainName]).Some?
    ensures AsTold(f, site, ReadAll(members).value, before, after, p) <==>
              PathRestored(f, site, members, before, after, p)
  {
    ReadsIff(members);
    OverlapIff(site, ReadAll(members).value, members);
    UnneededIff(f, site, members, p);
    TargetIff(site, ReadAll(members).value, members, before, after, p);
  }

  /** What the restore specification calls restored is this. */
  lemma RestoredIff(f: Formats, site: Site, members: seq<Member>, before: Files, after: Files)
    requires Accepted(f, site, members)
    ensures RestoredTo(f, site, ReadAll(members).value, before, after) <==> AllRestored(f, site, members, before, after)
  {
    var c := ReadAll(members).value;
    UnneededIff(f, site, members, site.auditFile);
    forall p: Path | p.Entry?
      ensures AsTold(f, site, c, before, after, p) <==> PathRestored(f, site, members, before, after, p)
    {
      PathIff(f, site, members, before, after, p);
    }
    assert RestoredTo(f, site, c, before, after) <==>
           forall p: Path :: p.Entry? ==> AsTold(f, site, c, before, after, p);
  }

  /** No managed secret of the directory is left that no reference names. */
  ghost predicate NoneUnneeded(f: Formats, site: Site, members: seq<Member>, after: Files) {
    forall p :: p in after ==> !Unneeded(f, site, members, p)
  }

  lemma NoneUnneededIff(f: Formats, site: Site, members: seq<Member>, after: Files)
    requires Accepted(f, site, members)
    ensures var referenced := ReferencedNames(f, site.directory, ReadAll(members).value.config[site.mainName]);
            && referenced.Some?
            && (NothingPrunable(after, site.directory, referenced.value) <==> NoneUnneeded(f, site, members, after))
  {
    UnneededIff(f, site, members, site.auditFile);
    forall p | p in after
      ensures Unneeded(f, site, members, p) <==>
                Prunable(site.directory,
                         ReferencedNames(f, site.directory, ReadAll(members).value.config[site.mainName]).value, p)
    {
      UnneededIff(f, site, members, p);
    }
  }

  /** What a restore replaces is small enough to be kept for a rollback. */
  ghost predicate TargetsFit(site: Site, members: seq<Member>, files: Files) {
    && (site.auditFile in files ==> |files[site.auditFile]| <= 2_147_483_648)
    && forall n :: Has(members, "config/" + n) && Entry(site.directory, n) in files ==>
                     |files[Entry(site.directory, n)]| <= 1_048_576
  }

  lemma TargetsFitIff(f: Formats, site: Site, members: seq<Member>, files: Files)
    requires Accepted(f, site, members)
    ensures SitesSmall(site, files, ReadAll(members).value) <==> TargetsFit(site, members, files)
  {
    var c := ReadAll(members).value;
    ReadsIff(members);
    forall n ensures n in c.config <==> Has(members, "config/" + n) {
      ArchivedNames(c.config, members, n);
    }
  }

  // ---------------------------------------------------------------- creating

  /** The file of the configuration directory belongs in a backup: old secrets and odd names do not. */
  ghost predicate Belongs(f: Formats, site: Site, files: Files, n: string) {
    var p, main := Entry(site.directory, n), Entry(site.directory, site.mainName);
    && p in files && main in files && f.readDocument(files[main]).Some?
    && (|| n == site.mainName
        || (SafeFileName(n) && (ManagedSecretName(n) ==> Some(p) in f.readDocument(files[main]).value.secrets)))
  }

  /** The archive has exactly the files that belong in it, each with its bytes, the database, and the list of files. */
  ghost predicate IsBackupOf(f: Formats, site: Site, files: Files, members: seq<Member>) {
    && NamesDiffer(members) && (forall i :: 0 <= i < |members| ==> members[i].regular)
    && (forall n, x :: Carries(members, "config/" + n, x) <==>
                         Belongs(f, site, files, n) && x == files[Entry(site.directory, n)])
    && site.auditFile in files
    && (forall x :: Carries(members, "data/audit.sqlite3", x) <==> x == f.auditSnapshot(files[site.auditFile]))
    && (forall m: Manifest :: m.format == 1 && m.configFile == site.mainName ==>
          (forall n :: n in m.configFiles <==> Belongs(f, site, files, n)) ==>
          Carries(members, "manifest.json", f.writeManifest(m)))
  }

  lemma BelongsIff(f: Formats, site: Site, files: Files, referenced: set<string>, n: string)
    requires Entry(site.directory, site.mainName) in files
    requires ReferencedNames(f, site.directory, files[Entry(site.directory, site.mainName)]) == Some(referenced)
    ensures Archived(files, site, referenced, n) <==> Belongs(f, site, files, n)
  {
    var d := f.readDocument(files[Entry(site.directory, site.mainName)]).value;
    assert forall i :: 0 <= i < |d.secrets| ==> ReferencedName(site.directory, d.secrets[i]).Some?;
    assert n in referenced <==> SafeFileName(n) && Some(Entry(site.directory, n)) in d.secrets;
  }

  lemma CarriesEither(a: seq<Member>, b: seq<Member>, name: string, x: Bytes)
    ensures Carries(a + b, name, x) <==> Carries(a, name, x) || Carries(b, name, x)
  {
    if i :| 0 <= i < |a| && a[i].name == name && a[i].content == x { assert (a + b)[i] == a[i]; }
    if i :| 0 <= i < |b| && b[i].name == name && b[i].content == x { assert (a + b)[|a| + i] == b[i]; }
  }

  lemma BodyCarries(names: seq<string>, config: map<string, Bytes>, name: string, x: Bytes)
    requires Enumerates(names, config)
    ensures Carries(ConfigMembers(names, config), name, x) <==>
              IsConfigMember(name) && name[7..] in config && x == config[name[7..]]
  {
    var body := ConfigMembers(names, config);
    if IsConfigMember(name) && name[7..] in config && x == config[name[7..]] {
      var i :| 0 <= i < |names| && names[i] == name[7..];
      ConfigNames(name, names[i]);
      assert body[i].name == name;
    }
    if i :| 0 <= i < |body| && body[i].name == name && body[i].content == x {
      ConfigNames(name, names[i]);
    }
  }

  lemma ArchiveCarries(f: Formats, site: Site, names: seq<string>, config: map<string, Bytes>, audit: Bytes,
                       name: string, x: Bytes)
    requires Enumerates(names, config)
    ensures var manifest := f.writeManifest(Manifest(1, site.mainName, config.Keys));
            Carries(ArchiveOf(f, site, names, config, audit), name, x) <==>
              || (name == "manifest.json" && x == manifest)
              || (name == "data/audit.sqlite3" && x == audit)
              || (IsConfigMember(name) && name[7..] in config && x == config[name[7..]])
  {
    var head := [Member("manifest.json", true, f.writeManifest(Manifest(1, site.mainName, config.Keys)))];
    var body, tail := ConfigMembers(names, config), [Member(AUDIT_MEMBER, true, audit)];
    BodyCarries(names, config, name, x);
    CarriesEither(head, body, name, x);
    CarriesEither(head + body, tail, name, x);
    OneCarries(head[0], name, x);
    OneCarries(tail[0], name, x);
  }

  lemma OneCarries(m: Member, name: string, x: Bytes)
    ensures Carries([m], name, x) <==> m.name == name && m.content == x
  {
    assert [m][0] == m;
  }

  lemma ArchiveNamesDiffer(f: Formats, site: Site, names: seq<string>, config: map<string, Bytes>, audit: Bytes)
    requires Enumerates(names, config)
    ensures NamesDiffer(ArchiveOf(f, site, names, config, audit))
    ensures forall i :: 0 <= i < |ArchiveOf(f, site, names, config, audit)| ==>
              ArchiveOf(f, site, names, config, audit)[i].regular
  {
    var members := ArchiveOf(f, site, names, config, audit);
    forall i | 0 <= i < |members| ensures members[i].regular {
      MemberAt(f, site, names, config, audit, i);
    }
    forall i, j | 0 <= i < j < |members| ensures members[i].name != members[j].name {
      MemberAt(f, site, names, config, audit, i);
      MemberAt(f, site, names, config, audit, j);
      NamesAtDiffer(names, i, j);
    }
  }

  lemma MemberAt(f: Formats, site: Site, names: seq<string>, config: map<string, Bytes>, audit: Bytes, i: int)
    requires Enumerates(names, config) && 0 <= i < |names| + 2
    ensures var members := ArchiveOf(f, site, names, config, audit);
            |members| == |names| + 2 && members[i].regular && members[i].name == NameAt(names, i)
  {
  }

  function NameAt(names: seq<string>, i: int): string
    requires 0 <= i < |names| + 2
  {
    if i == 0 then "manifest.json" else if i <= |names| then "config/" + names[i - 1] else "data/audit.sqlite3"
  }

  lemma NamesAtDiffer(names: seq<string>, i: int, j: int)
    requires 0 <= i < j < |names| + 2 && forall i, j :: 0 <= i < j < |names| ==> names[i] != names[j]
    ensures NameAt(names, i) != NameAt(names, j)
  {
    KindsDiffer("");
    if 0 < i <= |names| { ConfigNames("config/" + names[i - 1], names[i - 1]); }
    if 0 < j <= |names| { ConfigNames("config/" + names[j - 1], names[j - 1]); }
  }

  /** What create_backup writes is a backup of the files. */
  lemma ArchiveIsBackup(f: Formats, site: Site, files: Files, referenced: set<string>, names: seq<string>,
                        config: map<string, Bytes>)
    requires Entry(site.directory, site.mainName) in files && site.auditFile in files
    requires ReferencedNames(f, site.directory, files[Entry(site.directory, site.mainName)]) == Some(referenced)
    requires IsConfigSet(files, site, referenced, config) && Enumerates(names, config)
    ensures IsBackupOf(f, site, files, ArchiveOf(f, site, names, config, f.auditSnapshot(files[site.auditFile])))
  {
    var audit := f.auditSnapshot(files[site.auditFile]);
    var members := ArchiveOf(f, site, names, config, audit);
    ArchiveNamesDiffer(f, site, names, config, audit);
    forall n, x
      ensures Carries(members, "config/" + n, x) <==> Belongs(f, site, files, n) && x == files[Entry(site.directory, n)]
    {
      ArchiveCarries(f, site, names, config, audit, "config/" + n, x);
      ConfigNames("config/" + n, n);
      BelongsIff(f, site, files, referenced, n);
    }
    forall x ensures Carries(members, "data/audit.sqlite3", x) <==> x == audit {
      ArchiveCarries(f, site, names, config, audit, "data/audit.sqlite3", x);
      KindsDiffer("");
    }
    forall m: Manifest | m.format == 1 && m.configFile == site.mainName &&
                         forall n :: n in m.configFiles <==> Belongs(f, site, files, n)
      ensures Carries(members, "manifest.json", f.writeManifest(m))
    {
      forall n ensures n in m.configFiles <==> n in config {
        BelongsIff(f, site, files, referenced, n);
      }
      assert m == Manifest(1, site.mainName, config.Keys);
      ArchiveCarries(f, site, names, config, audit, "manifest.json", f.writeManifest(m));
    }
  }

  ghost predicate SecretsExist(f: Formats, site: Site, files: Files)
    requires Entry(site.directory, site.mainName) in files
  {
    var d := f.readDocument(files[Entry(site.directory, site.mainName)]);
    d.Some? && forall s :: s in d.value.secrets ==> s.Some? && s.value in files
  }

  /** The installation itself is one that a restore would accept. */
  ghost predicate Consistent(f: Formats, site: Site, files: Files, config: map<string, Bytes>)
    requires Entry(site.directory, site.mainName) in files && site.auditFile in files
  {
    var main, list := files[Entry(site.directory, site.mainName)], Manifest(1, site.mainName, config.Keys);
    && SafeFileName(site.mainName) && |f.writeManifest(list)| <= 65_536
    && f.readManifest(f.writeManifest(list)) == Some(list)
    && f.auditSound(f.auditSnapshot(files[site.auditFile]))
    && SecretsExist(f, site, files)
    && f.readDocument(main).value.auditFile == Some(site.auditFile)
    && f.loads(main, config)
    && forall n :: Belongs(f, site, files, n) ==> Entry(site.directory, n) != site.auditFile
  }

  /**
    A backup that was made can be restored if and only if: the main configuration has a safe name, the list of files
    survives being written and stays within 64 KiB, the snapshot of the database is sound, every secret's file is
    there, and the configuration names this database, loads, and keeps it apart from the configuration files.
  */
  lemma BackupIsGoodIff(f: Formats, site: Site, files: Files, referenced: set<string>, names: seq<string>,
                        config: map<string, Bytes>)
    requires Entry(site.directory, site.mainName) in files && site.auditFile in files
    requires ReferencedNames(f, site.directory, files[Entry(site.directory, site.mainName)]) == Some(referenced)
    requires IsConfigSet(files, site, referenced, config) && Enumerates(names, config)
    requires WithinLimits(names, config, f.auditSnapshot(files[site.auditFile]))
    ensures GoodArchive(f, site, ArchiveOf(f, site, names, config, f.auditSnapshot(files[site.auditFile]))) <==>
              Consistent(f, site, files, config)
  {
    var audit := f.auditSnapshot(files[site.auditFile]);
    var members := ArchiveOf(f, site, names, config, audit);
    AcceptedIff(f, site, members);
    ArchiveReadable(f, site, files, referenced, names, config, audit);
    if ReadAll(members).Some? {
      ReadsArchive(f, site, names, config, audit);
      SecretsIff(f, site, files, referenced, config);
      forall n ensures n in config <==> Belongs(f, site, files, n) {
        BelongsIff(f, site, files, referenced, n);
      }
    }
  }

  lemma SecretsIff(f: Formats, site: Site, files: Files, referenced: set<string>, config: map<string, Bytes>)
    requires Entry(site.directory, site.mainName) in files
    requires ReferencedNames(f, site.directory, files[Entry(site.directory, site.mainName)]) == Some(referenced)
    requires IsConfigSet(files, site, referenced, config)
    ensures var d := f.readDocument(files[Entry(site.directory, site.mainName)]);
            d.Some? && (SecretsPresent(site, d.value, config) <==> SecretsExist(f, site, files))
  {
    var d := f.readDocument(files[Entry(site.directory, site.mainName)]).value;
    forall i | 0 <= i < |d.secrets|
      ensures d.secrets[i].Some? && d.secrets[i].value.Entry? && d.secrets[i].value.directory == site.directory
      ensures d.secrets[i].value.name in config <==> d.secrets[i].value in files
    {
      assert ReferencedName(site.directory, d.secrets[i]).Some?;
      assert Archived(files, site, referenced, d.secrets[i].value.name) <==> d.secrets[i].value in files;
    }
  }
}
