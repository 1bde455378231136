/**
  What app/admin.py writes and app/config.py reads: documents naming secret files, the configurations they load to,
  and what an update asks for.  YAML and the secret-file syntax are arbitrary functions.
*/
module AdminFormat {
  import opened Wrappers
  import opened Disk
  import opened FileNames

  type Secret = string

  /** Of the settings of a printer, those an update rewrites, and all others as one value. */
  datatype Traits =
    Traits(selfSigned: bool, fingerprint: Option<string>, writable: bool, commands: set<string>, settings: string)

  datatype PrinterDoc =
    PrinterDoc(id: string, serial: string, accessFile: Path, caFile: Option<string>, traits: Traits)
  datatype Document = Document(auditDb: string, web: string, passwordFile: Path, printers: seq<PrinterDoc>)

  datatype PrinterConfig =
    PrinterConfig(id: string, serial: string, accessCode: Secret, caFile: Option<string>, traits: Traits)
  datatype AppConfig = AppConfig(auditDb: string, web: string, password: Secret, printers: seq<PrinterConfig>)

  datatype PrinterUpdate =
    PrinterUpdate(id: string, serial: string, accessCode: Option<Secret>, caFile: Option<string>, traits: Traits)
  datatype Update = Update(web: string, password: Option<Secret>, printers: seq<PrinterUpdate>)

  datatype Format = Format(
    parse: Bytes -> Option<Document>,
    render: Document -> Bytes,
    open: Bytes -> Option<Secret>,
    seal: Secret -> Bytes)

  /** What is written reads back, if it reads back at all. */
  ghost predicate Faithful(f: Format) {
    forall d :: f.parse(f.render(d)).Some? ==> f.parse(f.render(d)) == Some(d)
  }

  function Refs(doc: Document): set<Path> {
    {doc.passwordFile} + set printer | printer in doc.printers :: printer.accessFile
  }

  // ------------------------------------------------------------- load_config

  function SecretIn(f: Format, files: Files, path: Path): Option<Secret> {
    if path in files then f.open(files[path]) else None
  }

  predicate Loadable(f: Format, files: Files, doc: Document) {
    && SecretIn(f, files, doc.passwordFile).Some?
    && forall i :: 0 <= i < |doc.printers| ==> SecretIn(f, files, doc.printers[i].accessFile).Some?
  }

  function LoadedPrinter(f: Format, files: Files, printer: PrinterDoc): PrinterConfig
    requires SecretIn(f, files, printer.accessFile).Some?
  {
    PrinterConfig(printer.id, printer.serial, SecretIn(f, files, printer.accessFile).value, printer.caFile,
                  printer.traits)
  }

  function Loaded(f: Format, files: Files, doc: Document): AppConfig
    requires Loadable(f, files, doc)
  {
    AppConfig(doc.auditDb, doc.web, SecretIn(f, files, doc.passwordFile).value,
              seq(|doc.printers|, i requires 0 <= i < |doc.printers| => LoadedPrinter(f, files, doc.printers[i])))
  }

  function Load(f: Format, files: Files, path: Path): Option<AppConfig> {
    if path !in files then None
    else
      match f.parse(files[path])
      case Some(doc) => if Loadable(f, files, doc) then Some(Loaded(f, files, doc)) else None
      case None => None
  }

  /** Loading depends on the named secrets only. */
  lemma LoadedKept(f: Format, before: Files, after: Files, doc: Document, but: set<Path>)
    requires Loadable(f, before, doc) && Kept(before, after, but) && but !! Refs(doc)
    ensures Loadable(f, after, doc) && Loaded(f, after, doc) == Loaded(f, before, doc)
    ensures Refs(doc) <= before.Keys
  {
    assert doc.passwordFile in Refs(doc);
    forall i | 0 <= i < |doc.printers|
      ensures SecretIn(f, after, doc.printers[i].accessFile) == SecretIn(f, before, doc.printers[i].accessFile)
      ensures doc.printers[i].accessFile in before
    {
      assert doc.printers[i].accessFile in Refs(doc);
    }
    assert Loaded(f, after, doc).printers == Loaded(f, before, doc).printers;
  }

  /** No secret the configuration on disk names is missing. */
  ghost predicate Intact(f: Format, files: Files, main: Path) {
    && main in files
    && (f.parse(files[main]).Some? ==> Refs(f.parse(files[main]).value) <= files.Keys)
  }

  /** The configuration does not name its own file as a secret. */
  predicate SelfFree(f: Format, content: Bytes, main: Path) {
    f.parse(content).Some? ==> main !in Refs(f.parse(content).value)
  }

  lemma IntactKept(f: Format, before: Files, after: Files, main: Path)
    requires Intact(f, before, main) && Kept(before, after, {})
    ensures Intact(f, after, main)
  {
  }

  // ---------------------------------------------------------------- secrets

  predicate HexToken(token: string) {
    |token| == 16 && forall i :: 0 <= i < 16 ==> LowerHex(token[i])
  }

  /** `_managed_secret`. */
  predicate Managed(directory: string, path: Path) {
    path.Entry? && path.directory == directory && ManagedSecretName(path.name)
  }

  const PASSWORD_PREFIX := "bambu-web-password-v1"

  function AccessPrefix(id: string): string {
    "bambu-" + id + "-access-code-v1"
  }

  predicate SecretPrefix(prefix: string) {
    |prefix| > 3 && prefix[|prefix| - 3..] == "-v1" && ManagedStem(prefix[..|prefix| - 3])
  }

  lemma PrefixesAreManaged(id: string)
    requires PrinterToken(id)
    ensures SecretPrefix(PASSWORD_PREFIX) && SecretPrefix(AccessPrefix(id))
  {
    assert PASSWORD_PREFIX[..|PASSWORD_PREFIX| - 3] == "bambu-web-password";
    var stem := "bambu-" + id + "-access-code";
    assert AccessPrefix(id)[..|AccessPrefix(id)| - 3] == stem;
    assert stem[..6] == "bambu-" && stem[6..|stem| - 12] == id && stem[|stem| - 12..] == "-access-code";
  }

  /** A fresh secret's name is always one that finalize and backup recognise as managed. */
  lemma FreshNameIsManaged(prefix: string, token: string)
    requires SecretPrefix(prefix) && HexToken(token)
    ensures ManagedSecretName(prefix + "-" + token)
  {
    var name := prefix + "-" + token;
    var stem := prefix[..|prefix| - 3];
    assert name[..|name| - 20] == stem;
    var suffix := name[|name| - 20..];
    assert prefix == stem + "-v1";
    assert suffix == "-v1" + "-" + token;
    forall i | 4 <= i < 20 ensures LowerHex(suffix[i]) {
      assert suffix[i] == token[i - 4];
    }
    assert suffix[..4] == "-v1-";
  }

  // ------------------------------------------------------------ the request

  function FindConfig(printers: seq<PrinterConfig>, id: string): Option<PrinterConfig> {
    if printers == [] then None else if printers[0].id == id then Some(printers[0]) else FindConfig(printers[1..], id)
  }

  function FindDoc(printers: seq<PrinterDoc>, id: string): Option<PrinterDoc> {
    if printers == [] then None else if printers[0].id == id then Some(printers[0]) else FindDoc(printers[1..], id)
  }

  const DEFAULT_TLS_CA_FILE := "/app/certs/bambu-lab-ca.pem"

  /** The CA file an updated printer gets; None where the request tries to change a write-protected one. */
  function CaFile(existing: Option<PrinterConfig>, u: PrinterUpdate): Option<Option<string>> {
    if existing.Some? && u.caFile != existing.value.caFile && !(u.traits.selfSigned && u.caFile.None?) then None
    else
      var kept := if existing.Some? then existing.value.caFile else u.caFile;
      var chosen := if u.traits.selfSigned then None else if kept.None? then Some(DEFAULT_TLS_CA_FILE) else kept;
      if existing.None? && chosen.Some? && chosen.value != DEFAULT_TLS_CA_FILE then None else Some(chosen)
  }

  /** The configured printer of this id is number j. */
  predicate Known(printers: seq<PrinterConfig>, id: string, j: nat) {
    j < |printers| && printers[j].id == id && forall i :: 0 <= i < j ==> printers[i].id != id
  }

  predicate Unknown(printers: seq<PrinterConfig>, id: string) {
    forall i :: 0 <= i < |printers| ==> printers[i].id != id
  }

  lemma {:induction false} FindsKnown(printers: seq<PrinterConfig>, id: string)
    ensures match FindConfig(printers, id)
            case None => Unknown(printers, id)
            case Some(p) => exists j: nat :: Known(printers, id, j) && printers[j] == p
    ensures forall j: nat :: Known(printers, id, j) ==> FindConfig(printers, id) == Some(printers[j])
  {
    if printers == [] {
    } else if printers[0].id == id {
      assert Known(printers, id, 0);
    } else {
      var rest := printers[1..];
      FindsKnown(rest, id);
      if FindConfig(rest, id).Some? {
        var j: nat :| Known(rest, id, j) && rest[j] == FindConfig(rest, id).value;
        assert forall i :: 0 < i <= j + 1 ==> printers[i] == rest[i - 1];
        assert Known(printers, id, j + 1);
      } else {
        assert forall i :: 0 < i < |printers| ==> printers[i] == rest[i - 1];
      }
      forall j: nat | Known(printers, id, j) ensures FindConfig(printers, id) == Some(printers[j]) {
        assert forall i :: 0 < i <= j ==> printers[i] == rest[i - 1];
        assert Known(rest, id, j - 1);
      }
    }
  }

  /** A printer may keep its access code only as the same device. */
  ghost predicate KeepsCode(u: PrinterUpdate, current: AppConfig) {
    exists j: nat :: Known(current.printers, u.id, j) && current.printers[j].serial == u.serial
  }

  /**
    The CA file of a configured printer cannot be changed, only dropped for self-signed TLS; a new printer cannot bring
    its own.
  */
  ghost predicate CaPermitted(u: PrinterUpdate, current: AppConfig) {
    && (forall j: nat :: Known(current.printers, u.id, j) ==>
          u.caFile == current.printers[j].caFile || (u.traits.selfSigned && u.caFile.None?))
    && (Unknown(current.printers, u.id) ==>
          u.traits.selfSigned || u.caFile.None? || u.caFile.value == "/app/certs/bambu-lab-ca.pem")
  }

  /** The rules on access codes and CA files admit this printer of an update. */
  ghost predicate Admissible(u: PrinterUpdate, current: AppConfig) {
    (u.accessCode.None? ==> KeepsCode(u, current)) && CaPermitted(u, current)
  }

  /** No CA file with self-signed TLS; without, the configured one, or the default where there is none. */
  ghost predicate CaAsked(u: PrinterUpdate, current: AppConfig, caFile: Option<string>) {
    if u.traits.selfSigned then caFile.None?
    else
      && caFile.Some?
      && (forall j: nat :: Known(current.printers, u.id, j) && current.printers[j].caFile.Some? ==>
            caFile == current.printers[j].caFile)
      && ((forall j: nat :: Known(current.printers, u.id, j) ==> current.printers[j].caFile.None?) ==>
            caFile.value == "/app/certs/bambu-lab-ca.pem")
  }

  /** The choice of the CA file refuses and picks as these rules say. */
  lemma CaFileIff(u: PrinterUpdate, current: AppConfig)
    ensures var chosen := CaFile(FindConfig(current.printers, u.id), u);
            && (chosen.Some? <==> CaPermitted(u, current))
            && (chosen.Some? ==> CaAsked(u, current, chosen.value))
  {
    FindsKnown(current.printers, u.id);
  }

  lemma KeepsCodeIff(u: PrinterUpdate, current: AppConfig)
    ensures var existing := FindConfig(current.printers, u.id);
            && (KeepsCode(u, current) <==> existing.Some? && existing.value.serial == u.serial)
            && (existing.Some? ==>
                  forall j: nat :: Known(current.printers, u.id, j) ==> current.printers[j] == existing.value)
  {
    FindsKnown(current.printers, u.id);
  }

  /** Every secret of the update can be read back once it is written. */
  predicate Sealable(f: Format, update: Update) {
    && (update.password.Some? ==> f.open(f.seal(update.password.value)).Some?)
    && forall u :: u in update.printers && u.accessCode.Some? ==> f.open(f.seal(u.accessCode.value)).Some?
  }

  const DEFAULT_COMMANDS := {"pause", "resume", "stop", "speed", "light", "refresh_rfid"}

  /**
    What is written of the requested settings: no fingerprint without self-signed TLS, no choice of commands
    read-only.
  */
  function Normalised(t: Traits): Traits {
    t.(fingerprint := if t.selfSigned then t.fingerprint else None,
       commands := if t.writable then t.commands else DEFAULT_COMMANDS)
  }

  /** A given access code is the new one, an omitted one is that of the same configured device. */
  ghost predicate CodeAsked(f: Format, u: PrinterUpdate, current: AppConfig, code: Secret) {
    match u.accessCode
    case Some(given) => f.open(f.seal(given)) == Some(code)
    case None => exists j: nat :: Known(current.printers, u.id, j) && current.printers[j].serial == u.serial
                                  && current.printers[j].accessCode == code
  }

  /**
    The settings are the requested ones, but that a read-only printer gets the default commands and one without
    self-signed TLS no fingerprint.
  */
  predicate TraitsAsked(asked: Traits, t: Traits) {
    && t.selfSigned == asked.selfSigned && t.writable == asked.writable && t.settings == asked.settings
    && (t.writable ==> t.commands == asked.commands)
    && (!t.writable ==> t.commands == {"pause", "resume", "stop", "speed", "light", "refresh_rfid"})
    && (t.selfSigned ==> t.fingerprint == asked.fingerprint)
    && (!t.selfSigned ==> t.fingerprint.None?)
  }

  /** The request keeps the rules, and the loaded printer is the requested one. */
  ghost predicate RequestedPrinter(f: Format, u: PrinterUpdate, current: AppConfig, p: PrinterConfig) {
    && Admissible(u, current)
    && p.id == u.id && p.serial == u.serial
    && TraitsAsked(u.traits, p.traits)
    && CaAsked(u, current, p.caFile)
    && CodeAsked(f, u, current, p.accessCode)
  }

  ghost predicate Requested(f: Format, update: Update, current: AppConfig, result: AppConfig) {
    && result.auditDb == current.auditDb && result.web == update.web
    && (match update.password
        case Some(password) => f.open(f.seal(password)) == Some(result.password)
        case None => result.password == current.password)
    && |result.printers| == |update.printers|
    && forall i :: 0 <= i < |update.printers| ==> RequestedPrinter(f, update.printers[i], current, result.printers[i])
  }

  /** The document entry for one printer of the update, apart from the file of its access code. */
  predicate BuiltPrinter(u: PrinterUpdate, current: AppConfig, d: PrinterDoc) {
    && d.id == u.id && d.serial == u.serial && d.traits == Normalised(u.traits)
    && CaFile(FindConfig(current.printers, u.id), u) == Some(d.caFile)
  }

  /** A document this update may come to write: the secrets it names are old ones or new managed ones. */
  ghost predicate BuiltDocument(update: Update, current: AppConfig, oldDoc: Document, directory: string, d: Document) {
    && d.auditDb == current.auditDb && d.web == update.web
    && |d.printers| == |update.printers|
    && (forall i :: 0 <= i < |update.printers| ==> BuiltPrinter(update.printers[i], current, d.printers[i]))
    && forall p :: p in Refs(d) ==> p in Refs(oldDoc) || Managed(directory, p)
  }

  /** Every document this update may come to write reads back. */
  ghost predicate Readable(f: Format, update: Update, current: AppConfig, oldDoc: Document, directory: string) {
    forall d :: BuiltDocument(update, current, oldDoc, directory, d) ==> f.parse(f.render(d)) == Some(d)
  }

  /** The document entry and the files written for one printer of the update. */
  ghost predicate WrittenPrinter(f: Format, u: PrinterUpdate, current: AppConfig, oldDoc: Document, files: Files,
                           d: PrinterDoc)
  {
    && BuiltPrinter(u, current, d)
    && match u.accessCode
       case Some(code) => d.accessFile in files && files[d.accessFile] == f.seal(code)
       case None => KeepsCode(u, current) && FindDoc(oldDoc.printers, u.id).Some?
                    && d.accessFile == FindDoc(oldDoc.printers, u.id).value.accessFile
  }

  ghost predicate WrittenDocument(f: Format, update: Update, current: AppConfig, oldDoc: Document, files: Files,
                                  d: Document)
  {
    && d.auditDb == current.auditDb && d.web == update.web
    && (match update.password
        case Some(password) => d.passwordFile in files && files[d.passwordFile] == f.seal(password)
        case None => d.passwordFile == oldDoc.passwordFile)
    && |d.printers| == |update.printers|
    && forall i :: 0 <= i < |update.printers| ==>
        WrittenPrinter(f, update.printers[i], current, oldDoc, files, d.printers[i])
  }

  lemma {:induction false} FoundTogether(f: Format, files: Files, docs: seq<PrinterDoc>, configs: seq<PrinterConfig>,
                                         id: string)
    requires |docs| == |configs|
    requires forall i :: 0 <= i < |docs| ==> SecretIn(f, files, docs[i].accessFile).Some?
    requires forall i :: 0 <= i < |docs| ==> configs[i] == LoadedPrinter(f, files, docs[i])
    ensures FindDoc(docs, id).Some? <==> FindConfig(configs, id).Some?
    ensures FindDoc(docs, id).Some? ==>
      && SecretIn(f, files, FindDoc(docs, id).value.accessFile).Some?
      && FindConfig(configs, id).value == LoadedPrinter(f, files, FindDoc(docs, id).value)
      && FindDoc(docs, id).value in docs
  {
    if docs == [] {
    } else if docs[0].id != id {
      FoundTogether(f, files, docs[1..], configs[1..], id);
    }
  }

  lemma WrittenIsRequestedPrinter(f: Format, u: PrinterUpdate, current: AppConfig, oldDoc: Document, origin: Files,
                                  files: Files, d: PrinterDoc)
    requires Loadable(f, origin, oldDoc) && Loaded(f, origin, oldDoc) == current
    requires Kept(origin, files, {})
    requires WrittenPrinter(f, u, current, oldDoc, files, d) && SecretIn(f, files, d.accessFile).Some?
    ensures RequestedPrinter(f, u, current, LoadedPrinter(f, files, d))
  {
    FoundTogether(f, origin, oldDoc.printers, current.printers, u.id);
    CaFileIff(u, current);
    KeepsCodeIff(u, current);
  }

  /** Loading what was written for an update yields exactly the requested configuration. */
  lemma WrittenIsRequested(f: Format, update: Update, current: AppConfig, oldDoc: Document, origin: Files,
                           files: Files, d: Document)
    requires Loadable(f, origin, oldDoc) && Loaded(f, origin, oldDoc) == current
    requires Kept(origin, files, {})
    requires WrittenDocument(f, update, current, oldDoc, files, d) && Loadable(f, files, d)
    ensures Requested(f, update, current, Loaded(f, files, d))
  {
    forall i | 0 <= i < |update.printers|
      ensures RequestedPrinter(f, update.printers[i], current, Loaded(f, files, d).printers[i])
    {
      assert WrittenPrinter(f, update.printers[i], current, oldDoc, files, d.printers[i]);
      WrittenIsRequestedPrinter(f, update.printers[i], current, oldDoc, origin, files, d.printers[i]);
    }
  }

  /** And it does load, if the secrets can be read back at all. */
  lemma WrittenLoads(f: Format, update: Update, current: AppConfig, oldDoc: Document, origin: Files, files: Files,
                     d: Document)
    requires Loadable(f, origin, oldDoc) && Loaded(f, origin, oldDoc) == current
    requires Kept(origin, files, {}) && Sealable(f, update)
    requires WrittenDocument(f, update, current, oldDoc, files, d)
    ensures Loadable(f, files, d)
  {
    forall i | 0 <= i < |d.printers| ensures SecretIn(f, files, d.printers[i].accessFile).Some? {
      var u := update.printers[i];
      assert u in update.printers && WrittenPrinter(f, u, current, oldDoc, files, d.printers[i]);
      FoundTogether(f, origin, oldDoc.printers, current.printers, u.id);
    }
  }
}
