/** The two file-name patterns that app/backup.py and app/admin.py match against. */
module FileNames {
  import opened Wrappers

  predicate LowerHex(c: char) {
    '0' <= c <= '9' || 'a' <= c <= 'f'
  }

  predicate LowerAlphanumeric(c: char) {
    '0' <= c <= '9' || 'a' <= c <= 'z'
  }

  predicate Alphanumeric(c: char) {
    LowerAlphanumeric(c) || 'A' <= c <= 'Z'
  }

  /** SAFE_FILE_NAME: a leading letter or digit, then at most 127 of letters, digits, dot, underscore, hyphen. */
  predicate SafeFileName(name: string) {
    && 1 <= |name| <= 128
    && Alphanumeric(name[0])
    && forall i :: 1 <= i < |name| ==> Alphanumeric(name[i]) || name[i] == '.' || name[i] == '_' || name[i] == '-'
  }

  /** A printer id as it appears in a secret's name: 1 to 32 characters. */
  predicate PrinterToken(id: string) {
    && 1 <= |id| <= 32
    && LowerAlphanumeric(id[0])
    && forall i :: 1 <= i < |id| ==> LowerAlphanumeric(id[i]) || id[i] == '_' || id[i] == '-'
  }

  predicate ManagedStem(name: string) {
    || name == "bambu-web-password"
    || (|name| > 18 && name[..6] == "bambu-" && name[|name| - 12..] == "-access-code" &&
        PrinterToken(name[6..|name| - 12]))
  }

  predicate VersionSuffix(suffix: string) {
    |suffix| == 20 && suffix[..4] == "-v1-" && forall i :: 4 <= i < 20 ==> LowerHex(suffix[i])
  }

  /** MANAGED_SECRET_NAME: a stem, optionally followed by "-v1-" and 16 hexadecimal digits. */
  predicate ManagedSecretName(name: string) {
    || ManagedStem(name)
    || (|name| > 20 && VersionSuffix(name[|name| - 20..]) && ManagedStem(name[..|name| - 20]))
  }

  lemma ManagedStemIsSafe(name: string)
    requires ManagedStem(name)
    ensures SafeFileName(name) && |name| <= 50
  {
    if name != "bambu-web-password" {
      forall i | 1 <= i < |name| ensures Alphanumeric(name[i]) || name[i] == '.' || name[i] == '_' || name[i] == '-' {
        if i < 6 {
          assert name[i] == name[..6][i];
        } else if i >= |name| - 12 {
          assert name[i] == name[|name| - 12..][i - (|name| - 12)];
        } else {
          assert name[i] == name[6..|name| - 12][i - 6];
        }
      }
      assert name[0] == name[..6][0];
    }
  }

  /** Every managed secret name is a safe file name, so a backup can carry it. */
  lemma ManagedIsSafe(name: string)
    requires ManagedSecretName(name)
    ensures SafeFileName(name)
  {
    if ManagedStem(name) {
      ManagedStemIsSafe(name);
    } else {
      var stem := name[..|name| - 20];
      ManagedStemIsSafe(stem);
      assert name[0] == stem[0];
      forall i | 1 <= i < |name| ensures Alphanumeric(name[i]) || name[i] == '.' || name[i] == '_' || name[i] == '-' {
        if i < |name| - 20 {
          assert name[i] == stem[i];
        } else {
          assert name[i] == name[|name| - 20..][i - (|name| - 20)];
        }
      }
    }
  }

  /** The name is made of these parts: "bambu-web-password" or "bambu-<id>-access-code", and perhaps a version. */
  predicate MadeOf(name: string, id: Option<string>, version: Option<string>) {
    && (id.Some? ==> PrinterToken(id.value))
    && (version.Some? ==> |version.value| == 16 && forall i :: 0 <= i < 16 ==> LowerHex(version.value[i]))
    && name == (if id.Some? then "bambu-" + id.value + "-access-code" else "bambu-web-password")
               + (if version.Some? then "-v1-" + version.value else "")
  }

  /** The pattern of managed secret names matches exactly the names made so. */
  lemma ManagedIff(name: string)
    ensures ManagedSecretName(name) <==> exists id, version :: MadeOf(name, id, version)
  {
    if ManagedStem(name) {
      var id := StemParts(name);
      assert name + "" == name;
      assert MadeOf(name, id, None);
    } else if ManagedSecretName(name) {
      var k := |name| - 20;
      var id := StemParts(name[..k]);
      var version := name[k..][4..];
      assert name == name[..k] + name[k..] && name[k..] == "-v1-" + version;
      assert MadeOf(name, id, Some(version));
    }
    if id, version :| MadeOf(name, id, version) { MadeIsManaged(name, id, version); }
  }

  lemma StemParts(stem: string) returns (id: Option<string>)
    requires ManagedStem(stem)
    ensures id.Some? ==> PrinterToken(id.value) && stem == "bambu-" + id.value + "-access-code"
    ensures id.None? ==> stem == "bambu-web-password"
  {
    if stem == "bambu-web-password" {
      id := None;
    } else {
      var k := |stem| - 12;
      id := Some(stem[6..k]);
      assert stem == stem[..6] + stem[6..k] + stem[k..];
    }
  }

  lemma MadeIsManaged(name: string, id: Option<string>, version: Option<string>)
    requires MadeOf(name, id, version)
    ensures ManagedSecretName(name)
  {
    var stem := if id.Some? then "bambu-" + id.value + "-access-code" else "bambu-web-password";
    if id.Some? {
      assert stem[..6] == "bambu-" && stem[6..|stem| - 12] == id.value && stem[|stem| - 12..] == "-access-code";
    }
    assert ManagedStem(stem);
    if version.None? {
      assert name == stem;
    } else {
      var suffix := "-v1-" + version.value;
      assert name[..|name| - 20] == stem && name[|name| - 20..] == suffix && suffix[..4] == "-v1-";
      forall i | 4 <= i < 20 ensures LowerHex(suffix[i]) { assert suffix[i] == version.value[i - 4]; }
    }
  }

  /** The certificate that lies in the same directory is not one of them. */
  lemma CertificateIsNotManaged()
    ensures !ManagedSecretName("bambu-lab-ca.pem")
  {
    var name := "bambu-lab-ca.pem";
    assert |name| == 16 && name[|name| - 12..][0] == 'u';
    assert name != "bambu-web-password";
  }
}
