// The Standard layout: where each value of the store is kept. No two values
// share a path, and a package's directory holds its own values and no others.
module CapPaths {
  import opened Wrappers
  import opened CapModel

  const REGISTRY_PATH := "config/capability_packages_registry.json"
  const PACKAGES_DIR := "packages/capability_packages"
  const ROLLBACK_DIR := "packages/capability_package_rollback"
  const MANIFEST_NAME := "manifest.json"

  datatype Key = RegistryKey | ManifestKey(id: string) | FileKey(id: string, path: string) | RollbackKey(id: string)

  function PackageDir(id: string): string { PACKAGES_DIR + "/" + id }

  function PathOf(k: Key): string {
    match k
    case RegistryKey => REGISTRY_PATH
    case ManifestKey(id) => PackageDir(id) + "/" + MANIFEST_NAME
    case FileKey(id, path) => PackageDir(id) + "/" + path
    case RollbackKey(id) => ROLLBACK_DIR + "/" + id + ".json"
  }

  // A key the store uses: its id passed validation, and so did its path.
  ghost predicate Used(k: Key) {
    && (!k.RegistryKey? ==> Normalize(k.id, MAX_ID).Some?)
    && (k.FileKey? ==> exists s :: SafePath(k.path, Prefix(s)))
  }

  // The key's place below the package directory.
  function Below(k: Key): string
    requires k.ManifestKey? || k.FileKey?
  {
    if k.ManifestKey? then MANIFEST_NAME else k.path
  }

  lemma {:induction false} TrimmedAway(s: string, c: char)
    requires c in s && !IsSpace(c)
    ensures c in TrimLeft(s)
    decreases |s|
  {
    if IsSpace(s[0]) { TrimmedAway(s[1..], c); }
  }

  lemma {:induction false} TrimmedAwayRight(s: string, c: char)
    requires c in s && !IsSpace(c)
    ensures c in TrimRight(s)
    decreases |s|
  {
    if IsSpace(s[|s| - 1]) {
      assert s == s[..|s| - 1] + [s[|s| - 1]];
      TrimmedAwayRight(s[..|s| - 1], c);
    }
  }

  // A valid id has no slash, not even in the white space around it.
  lemma NoSlash(id: string)
    requires Normalize(id, MAX_ID).Some?
    ensures '/' !in id
  {
    if '/' in id {
      TrimmedAway(id, '/');
      TrimmedAwayRight(TrimLeft(id), '/');
      assert false;
    }
  }

  lemma FirstSlash(id: string, rest: string, other: string, tail: string)
    requires '/' !in id && '/' !in other && id + "/" + rest == other + "/" + tail
    ensures id == other && rest == tail
  {
    var s, t := id + "/" + rest, other + "/" + tail;
    assert s[|id|] == '/' && t[|other|] == '/';
    assert forall i :: 0 <= i < |id| ==> s[i] == id[i] && s[i] != '/';
    assert forall i :: 0 <= i < |other| ==> t[i] == other[i] && t[i] != '/';
    assert |id| == |other|;
    assert s[..|id|] == id && t[..|other|] == other;
    assert s[|id| + 1..] == rest && t[|other| + 1..] == tail;
  }

  lemma Cancel(a: string, x: string, y: string)
    requires a + x == a + y
    ensures x == y
  {
    assert (a + x)[|a|..] == x && (a + y)[|a|..] == y;
  }

  // Where the three directories part: the first letter, or the one after
  // "packages/capability_package".
  lemma Apart(k: Key)
    ensures |PathOf(k)| > 27 && (PathOf(k)[0] == 'c' <==> k.RegistryKey?)
    ensures !k.RegistryKey? ==> (PathOf(k)[27] == '_' <==> k.RollbackKey?)
  {
    match k
    case RegistryKey => assert REGISTRY_PATH[0] == 'c';
    case RollbackKey(id) => assert PathOf(k)[..36] == ROLLBACK_DIR;
    case ManifestKey(id) => assert PathOf(k)[..28] == PACKAGES_DIR;
    case FileKey(id, path) => assert PathOf(k)[..28] == PACKAGES_DIR;
  }

  lemma InPackage(k: Key)
    requires k.ManifestKey? || k.FileKey?
    ensures PathOf(k) == (PACKAGES_DIR + "/") + (k.id + "/" + Below(k))
  {
    InDirectory(PACKAGES_DIR, k.id, Below(k));
  }

  lemma InDirectory(dir: string, id: string, rest: string)
    ensures dir + "/" + id + "/" + rest == (dir + "/") + (id + "/" + rest)
  {}

  // Two different keys have two different paths.
  lemma PathsAreApart(k: Key, l: Key)
    requires Used(k) && Used(l) && PathOf(k) == PathOf(l)
    ensures k == l
  {
    Apart(k);
    Apart(l);
    if k.RollbackKey? {
      assert PathOf(k) == (ROLLBACK_DIR + "/") + (k.id + ".json");
      assert PathOf(l) == (ROLLBACK_DIR + "/") + (l.id + ".json");
      Cancel(ROLLBACK_DIR + "/", k.id + ".json", l.id + ".json");
      assert (k.id + ".json")[..|k.id|] == k.id && (l.id + ".json")[..|l.id|] == l.id;
    } else if !k.RegistryKey? {
      NoSlash(k.id);
      NoSlash(l.id);
      InPackage(k);
      InPackage(l);
      Cancel(PACKAGES_DIR + "/", k.id + "/" + Below(k), l.id + "/" + Below(l));
      FirstSlash(k.id, Below(k), l.id, Below(l));
      if k.FileKey? { NotTheManifest(k); }
      if l.FileKey? { NotTheManifest(l); }
    }
  }

  lemma FirstLetter(s: Section)
    ensures Prefix(s) != "" && Prefix(s)[0] != 'm'
  {}

  lemma NotTheManifest(k: Key)
    requires Used(k) && k.FileKey?
    ensures k.path != MANIFEST_NAME
  {
    hide Normalize, Trim;
    var s :| SafePath(k.path, Prefix(s));
    FirstLetter(s);
    hide SafePath;
    assert k.path[0] == Prefix(s)[0];
    assert MANIFEST_NAME[0] == 'm';
  }

  // Removing a package's directory takes its manifest and files and nothing else.
  lemma DirectoryHoldsThePackage(k: Key, id: string)
    requires Used(k) && Normalize(id, MAX_ID).Some?
    ensures PackageDir(id) + "/" <= PathOf(k) <==> (k.ManifestKey? || k.FileKey?) && k.id == id
  {
    var dir := PackageDir(id) + "/";
    if (k.ManifestKey? || k.FileKey?) && k.id == id {
      assert PathOf(k) == dir + Below(k);
    }
    if dir <= PathOf(k) { Inside(k, id, PathOf(k)[|dir|..]); }
  }

  lemma Inside(k: Key, id: string, rest: string)
    requires Used(k) && Normalize(id, MAX_ID).Some? && PathOf(k) == PackageDir(id) + "/" + rest
    ensures (k.ManifestKey? || k.FileKey?) && k.id == id
  {
    Apart(k);
    InDirectory(PACKAGES_DIR, id, rest);
    DirectoryLetters(id, rest);
    NoSlash(k.id);
    NoSlash(id);
    InPackage(k);
    Cancel(PACKAGES_DIR + "/", k.id + "/" + Below(k), id + "/" + rest);
    FirstSlash(k.id, Below(k), id, rest);
  }

  lemma DirectoryLetters(id: string, rest: string)
    ensures (PackageDir(id) + "/" + rest)[0] == 'p' && (PackageDir(id) + "/" + rest)[27] == 's'
  {
    assert (PackageDir(id) + "/" + rest)[..28] == PACKAGES_DIR;
  }

  // The paths, letter by letter.
  lemma PathsSpelledOut(id: string, path: string)
    ensures PathOf(RegistryKey) == "config/capability_packages_registry.json"
    ensures PathOf(ManifestKey(id)) == "packages/capability_packages/" + id + "/manifest.json"
    ensures PathOf(FileKey(id, path)) == "packages/capability_packages/" + id + "/" + path
    ensures PathOf(RollbackKey(id)) == "packages/capability_package_rollback/" + id + ".json"
  {
    assert PACKAGES_DIR + "/" == "packages/capability_packages/";
    assert ROLLBACK_DIR + "/" == "packages/capability_package_rollback/";
    assert "/manifest.json" == "/" + MANIFEST_NAME;
    Regroup("packages/capability_packages/" + id, "/", MANIFEST_NAME);
  }

  lemma Regroup(a: string, b: string, c: string)
    ensures a + b + c == a + (b + c)
  {}

  // The dot is a valid id, and its directory is written as one below that of all packages,
  // which a file system that reads the dot takes it for.
  lemma DotIsAnId()
    ensures Normalize(".", MAX_ID) == Some(".") && PackageDir(".") == PACKAGES_DIR + "/."
  {
    assert TrimLeft(".") == "." && TrimRight(".") == ".";
  }
}
