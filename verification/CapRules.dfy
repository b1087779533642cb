// The rules of the capability packages said once more, in the fields and numbers they are
// about: what an id, a path and a payload must be, what loads, what is active, and what an
// entry holds after an operation.
module CapRules {
  import opened Wrappers
  import opened CapModel
  import opened CapRegistry
  import opened CapStore
  import opened CapLifecycle
  import CapRuns
  import Utf8

  // ----- ids and paths

  ghost predicate AllSpaces(s: string) { forall c :: c in s ==> IsSpace(c) }

  lemma IdCharacters(c: char)
    ensures IdChar(c) <==>
            c in "abcdefghijklmnopqrstuvwxyz" || c in "ABCDEFGHIJKLMNOPQRSTUVWXYZ" || c in "0123456789" || c in "_-."
  {
    LowerCase(c);
    UpperCase(c);
    Digits(c);
    assert c in "_-." <==> c == '_' || c == '-' || c == '.';
  }

  // The White_Space property of Unicode.
  lemma WhiteSpace(c: char)
    ensures IsSpace(c) <==> c as int in {
      0x9, 0xA, 0xB, 0xC, 0xD, 0x20, 0x85, 0xA0, 0x1680, 0x2000, 0x2001, 0x2002, 0x2003, 0x2004, 0x2005,
      0x2006, 0x2007, 0x2008, 0x2009, 0x200A, 0x2028, 0x2029, 0x202F, 0x205F, 0x3000}
  {}

  lemma LowerCase(c: char)
    ensures 'a' <= c <= 'z' <==> c in "abcdefghijklmnopqrstuvwxyz"
  {
    var letters := "abcdefghijklmnopqrstuvwxyz";
    if 'a' <= c <= 'z' { assert letters[c as int - 'a' as int] == c; }
  }

  lemma UpperCase(c: char)
    ensures 'A' <= c <= 'Z' <==> c in "ABCDEFGHIJKLMNOPQRSTUVWXYZ"
  {
    var letters := "ABCDEFGHIJKLMNOPQRSTUVWXYZ";
    if 'A' <= c <= 'Z' { assert letters[c as int - 'A' as int] == c; }
  }

  lemma Digits(c: char)
    ensures '0' <= c <= '9' <==> c in "0123456789"
  {
    var digits := "0123456789";
    if '0' <= c <= '9' { assert digits[c as int - '0' as int] == c; }
  }

  lemma {:induction false} TrimLeftExactly(s: string) returns (left: string)
    ensures s == left + TrimLeft(s) && AllSpaces(left)
    ensures TrimLeft(s) != "" ==> !IsSpace(TrimLeft(s)[0])
  {
    if s != "" && IsSpace(s[0]) {
      var rest := TrimLeftExactly(s[1..]);
      left := [s[0]] + rest;
      assert s == [s[0]] + s[1..];
    } else {
      left := "";
    }
  }

  lemma {:induction false} TrimRightExactly(s: string) returns (right: string)
    ensures s == TrimRight(s) + right && AllSpaces(right)
    ensures TrimRight(s) != "" ==> !IsSpace(TrimRight(s)[|TrimRight(s)| - 1])
  {
    if s != "" && IsSpace(s[|s| - 1]) {
      var front := TrimRightExactly(s[..|s| - 1]);
      right := front + [s[|s| - 1]];
      assert s == s[..|s| - 1] + [s[|s| - 1]];
    } else {
      right := "";
    }
  }

  lemma {:induction false} TrimLeftOf(left: string, s: string)
    requires AllSpaces(left) && s != "" && !IsSpace(s[0])
    ensures TrimLeft(left + s) == s
  {
    if left == "" {
      assert left + s == s;
    } else {
      assert left[0] in left;
      assert (left + s)[1..] == left[1..] + s;
      TrimLeftOf(left[1..], s);
    }
  }

  lemma {:induction false} TrimRightOf(s: string, right: string)
    requires AllSpaces(right) && s != "" && !IsSpace(s[|s| - 1])
    ensures TrimRight(s + right) == s
  {
    if right == "" {
      assert s + right == s;
    } else {
      assert right[|right| - 1] in right;
      assert (s + right)[..|s + right| - 1] == s + right[..|right| - 1];
      TrimRightOf(s, right[..|right| - 1]);
    }
  }

  // value is id with white space around it, and id is short and of the characters allowed.
  ghost predicate Spells(value: string, id: string, max: nat, left: string, right: string) {
    && value == left + id + right && AllSpaces(left) && AllSpaces(right)
    && 0 < |id| <= max && forall c :: c in id ==> IdChar(c)
  }

  lemma NormalizeExactly(value: string, id: string, max: nat)
    ensures Normalize(value, max) == Some(id) <==> exists left, right :: Spells(value, id, max, left, right)
  {
    if Normalize(value, max) == Some(id) {
      var left := TrimLeftExactly(value);
      var right := TrimRightExactly(TrimLeft(value));
      assert Spells(value, id, max, left, right);
    }
    if left, right :| Spells(value, id, max, left, right) {
      assert id[0] in id && id[|id| - 1] in id;
      assert left + id + right == left + (id + right);
      TrimLeftOf(left, id + right);
      TrimRightOf(id, right);
    }
  }

  // A path is a directory and a name below it, without two dots in a row and not itself a
  // directory.
  ghost predicate InDirectory(path: string, dir: string) {
    dir <= path && path != "" && path[|path| - 1] != '/' && !Within("..", path)
  }

  lemma SafePathExactly(path: string, s: Section)
    ensures SafePath(path, Prefix(s)) <==> InDirectory(path, Prefix(s))
    ensures Prefix(Skills) == "skills/" && Prefix(Workflows) == "workflows/"
    ensures Prefix(Policies) == "policies/" && Prefix(Assets) == "assets/"
  {
    if Prefix(s) <= path {
      assert path[0] == Prefix(s)[0];
      if Trim(path) == "" { NothingLeft(path); }
      TwoDots(path);
    }
  }

  ghost predicate Within(part: string, s: string) { exists a, b :: s == a + part + b }

  lemma TwoDots(s: string)
    ensures Within("..", s) <==> exists i :: 0 <= i < |s| - 1 && s[i] == '.' && s[i + 1] == '.'
  {
    if a, b :| s == a + ".." + b {
      assert s[|a|] == '.' && s[|a| + 1] == '.';
    }
    if i :| 0 <= i < |s| - 1 && s[i] == '.' && s[i + 1] == '.' {
      assert s == s[..i] + ".." + s[i + 2..];
    }
  }

  lemma NothingLeft(s: string)
    requires Trim(s) == ""
    ensures AllSpaces(s)
  {
    var left := TrimLeftExactly(s);
    var right := TrimRightExactly(TrimLeft(s));
    assert TrimLeft(s) == right;
  }

  // ----- payloads

  ghost predicate IsId(value: string, max: nat) { exists id :: Normalize(value, max) == Some(id) }

  // The entries of a section: at most 16, each with an id of its own.
  ghost predicate EntriesOk(refs: seq<Ref>, dir: string) {
    && |refs| <= 16
    && (forall r :: r in refs ==> IsId(r.id, 48) && InDirectory(r.path, dir))
    && forall i, j :: 0 <= i < j < |refs| ==> refs[i].id != refs[j].id
  }

  // Assets have no id; their paths differ.
  ghost predicate AssetsOk(refs: seq<Ref>) {
    && |refs| <= 16
    && (forall r :: r in refs ==> InDirectory(r.path, "assets/"))
    && forall i, j :: 0 <= i < j < |refs| ==> refs[i].path != refs[j].path
  }

  lemma SectionRules(refs: seq<Ref>, s: Section)
    ensures ValidRefs(refs, s) <==> if s == Assets then AssetsOk(refs) else EntriesOk(refs, Prefix(s))
  {
    hide SafePath, InDirectory, Normalize;
    forall r | r in refs ensures SafePath(r.path, Prefix(s)) <==> InDirectory(r.path, Prefix(s)) {
      SafePathExactly(r.path, s);
    }
  }

  lemma ManifestRules(m: Manifest, compiled: set<string>)
    ensures ValidManifest(m, compiled) <==>
      && IsId(m.packageId, 48) && IsId(m.version, 32)
      && |m.channels| <= 16 && (forall c :: c in m.channels && c != "*" ==> c in compiled)
      && EntriesOk(m.skills, "skills/") && EntriesOk(m.workflows, "workflows/")
      && EntriesOk(m.policies, "policies/") && AssetsOk(m.assets)
  {
    SectionRules(m.skills, Skills);
    SectionRules(m.workflows, Workflows);
    SectionRules(m.policies, Policies);
    SectionRules(m.assets, Assets);
    hide ValidRefs, EntriesOk, AssetsOk, Normalize;
  }

  // The files of a payload for a text section: each in its directory, not empty, at most
  // 32 KiB in UTF-8.
  ghost predicate TextsOk(files: seq<File>, dir: string) {
    && (forall i, j :: 0 <= i < j < |files| ==> files[i].path != files[j].path)
    && forall f :: f in files ==>
         && InDirectory(f.path, dir)
         && match f.content
            case Text(text) => 0 < |Utf8.Encode(text)| <= 32_768
            case PolicyJson(_, size) => 0 < size <= 32_768
            case Octets(_) => false
  }

  // Assets are octets, not none and at most 64 KiB.
  ghost predicate AssetFilesOk(files: seq<File>) {
    && (forall i, j :: 0 <= i < j < |files| ==> files[i].path != files[j].path)
    && forall f :: f in files ==>
         InDirectory(f.path, "assets/") && f.content.Octets? && 0 < |f.content.data| <= 65_536
  }

  lemma FileRules(files: seq<File>, s: Section)
    ensures ValidFiles(files, s) <==> if s == Assets then AssetFilesOk(files) else TextsOk(files, Prefix(s))
  {
    hide SafePath, InDirectory, Utf8.Encode, Utf8.Len;
    forall f | f in files
      ensures SafePath(f.path, Prefix(s)) <==> InDirectory(f.path, Prefix(s))
      ensures f.content.Text? ==> |Utf8.Encode(f.content.text)| == Utf8.Len(f.content.text)
    {
      SafePathExactly(f.path, s);
      if f.content.Text? { Utf8.OctetsOf(f.content.text); }
    }
  }

  // The file behind a policy entry is a document that carries the entry's id and has, for
  // tools with valid names, at most one overlay each.
  ghost predicate PolicyOk(r: Ref, files: seq<File>) {
    forall f :: f in files && f.path == r.path ==>
      && f.content.PolicyJson? && f.content.doc.policyId == r.id
      && var overlays := f.content.doc.overlays;
         && (forall o :: o in overlays ==> IsId(o.tool, 48))
         && forall i, j :: 0 <= i < j < |overlays| ==> overlays[i].tool != overlays[j].tool
  }

  // Every path the entries name is the path of a file.
  ghost predicate AllThere(refs: seq<Ref>, files: seq<File>) {
    (set r | r in refs :: r.path) <= (set f | f in files :: f.path)
  }

  lemma PresentExactly(refs: seq<Ref>, files: seq<File>)
    ensures AllPresent(refs, files) <==> AllThere(refs, files)
  {
    if AllThere(refs, files) {
      var named := set r | r in refs :: r.path;
      forall r | r in refs ensures exists f :: f in files && f.path == r.path {
        assert r.path in named;
      }
    }
  }

  lemma PolicyRules(r: Ref, files: seq<File>)
    ensures ValidPolicy(r, files) <==> PolicyOk(r, files)
  {
    hide Normalize;
  }

  // The rules of a payload, all of them.
  lemma PayloadRules(p: Payload, compiled: set<string>)
    ensures ValidPayload(p, compiled) <==>
      && ValidManifest(p.manifest, compiled)
      && TextsOk(p.skills, "skills/") && TextsOk(p.workflows, "workflows/")
      && TextsOk(p.policies, "policies/") && AssetFilesOk(p.assets)
      && AllThere(p.manifest.skills, p.skills) && AllThere(p.manifest.workflows, p.workflows)
      && AllThere(p.manifest.policies, p.policies) && AllThere(p.manifest.assets, p.assets)
      && forall r :: r in p.manifest.policies ==> PolicyOk(r, p.policies)
  {
    FileRules(p.skills, Skills);
    FileRules(p.workflows, Workflows);
    FileRules(p.policies, Policies);
    FileRules(p.assets, Assets);
    PresentExactly(p.manifest.skills, p.skills);
    PresentExactly(p.manifest.workflows, p.workflows);
    PresentExactly(p.manifest.policies, p.policies);
    PresentExactly(p.manifest.assets, p.assets);
    forall r | r in p.manifest.policies ensures ValidPolicy(r, p.policies) <==> PolicyOk(r, p.policies) {
      PolicyRules(r, p.policies);
    }
    hide ValidManifest, ValidFiles, TextsOk, AssetFilesOk, AllPresent, AllThere, ValidPolicy, PolicyOk;
  }

  // ----- channels, capabilities and workflows

  // Two packages are compared exactly when some channel would run both.
  lemma OverlapExactly(m: Manifest, n: Manifest)
    ensures ChannelsOverlap(m.channels, n.channels) <==>
            exists c :: SupportsChannel(m, c) && SupportsChannel(n, c)
  {
    if ChannelsOverlap(m.channels, n.channels) {
      var c := if m.channels == [] || "*" in m.channels then (if n.channels == [] then "*" else n.channels[0])
               else if n.channels == [] || "*" in n.channels then m.channels[0]
               else var x :| x in m.channels && x in n.channels; x;
      assert SupportsChannel(m, c) && SupportsChannel(n, c);
    }
  }

  // A package is active on a channel exactly when it has an enabled entry and a manifest, names
  // the channel, all channels or none, and every capability it requires is there.
  lemma ActiveExactly(st: Store, caps: seq<string>, channel: string, id: string)
    ensures id in CapRuns.ActiveIds(st, st.registry, caps, channel) <==>
      && id in st.manifests && (exists e :: e in st.registry && e.packageId == id && e.enabled)
      && (var c := st.manifests[id].channels; c == [] || "*" in c || channel in c)
      && forall c :: c in st.manifests[id].required ==> c in caps
  {}

  // A payload with the workflow id of an enabled package that shares a channel is not enabled.
  lemma ClashIsRefused(s: Store, entries: seq<Entry>, p: Payload, caps: seq<string>, e: Entry, r: Ref, w: Ref)
    requires WorkflowClash(s, entries, p.manifest, p.manifest.packageId, e, r, w)
    ensures !MayEnable(s, entries, p, caps)
  {
    WorkflowTestExactly(s, entries, p.manifest, p.manifest.packageId);
  }

  // ----- the registry

  // Ids are in the order of their first different character; a beginning comes first.
  lemma {:induction false} LessExactly(s: string, t: string)
    ensures Less(s, t) <==> exists i: nat :: FirstDifference(s, t, i)
  {
    if s != "" && t != "" && s[0] == t[0] {
      LessExactly(s[1..], t[1..]);
      if i: nat :| FirstDifference(s[1..], t[1..], i) {
        assert s[..i + 1] == [s[0]] + s[1..][..i] && t[..i + 1] == [t[0]] + t[1..][..i];
        assert FirstDifference(s, t, i + 1);
      }
      if i: nat :| FirstDifference(s, t, i) {
        assert i > 0;
        assert s[1..][..i - 1] == s[..i][1..] && t[1..][..i - 1] == t[..i][1..];
        assert FirstDifference(s[1..], t[1..], i - 1);
      }
    } else if t != "" {
      if s == "" || s[0] < t[0] { assert FirstDifference(s, t, 0); }
      if i: nat :| FirstDifference(s, t, i) {
        if i > 0 { SameHead(s, t, i); }
      }
    }
  }

  lemma SameHead(s: string, t: string, i: nat)
    requires FirstDifference(s, t, i) && i > 0
    ensures s != "" && t != "" && s[0] == t[0]
  {
    assert s[..i][0] == t[..i][0];
  }

  ghost predicate FirstDifference(s: string, t: string, i: nat) {
    i <= |s| && i < |t| && s[..i] == t[..i] && (i == |s| || s[i] < t[i])
  }

  lemma {:induction false} SortedExactly(entries: seq<Entry>)
    ensures Sorted(entries) <==>
            forall i, j :: 0 <= i < j < |entries| ==> Less(entries[i].packageId, entries[j].packageId)
  {
    if entries != [] {
      var rest := entries[1..];
      SortedExactly(rest);
      assert forall i :: 0 < i < |entries| ==> entries[i] == rest[i - 1];
    }
  }

  // ----- what is loaded

  // A bundle is there when the manifest is, and is whole when every file it names is there.
  lemma LoadExactly(st: Store, id: string)
    ensures Load(st, id) == Ok(None) <==> id !in st.manifests
    ensures Load(st, id).Err? <==>
            id in st.manifests && exists s, r :: r in st.manifests[id].Refs(s) && (id, r.path) !in st.files
    ensures Load(st, id).Ok? && id in st.manifests ==>
      var m := st.manifests[id];
      && Load(st, id).value.Some?
      && var p := Load(st, id).value.value;
         && p.manifest == m && !p.enableOnInstall
         && FilesOf(st, id, m.skills, p.skills) && FilesOf(st, id, m.workflows, p.workflows)
         && FilesOf(st, id, m.policies, p.policies) && FilesOf(st, id, m.assets, p.assets)
  {
    if id in st.manifests {
      var m := st.manifests[id];
      assert m.Refs(Skills) == m.skills && m.Refs(Workflows) == m.workflows;
      assert m.Refs(Policies) == m.policies && m.Refs(Assets) == m.assets;
    }
  }

  ghost predicate FilesOf(st: Store, id: string, refs: seq<Ref>, files: seq<File>) {
    && |files| == |refs|
    && forall i :: 0 <= i < |refs| ==>
         && files[i].path == refs[i].path && (id, refs[i].path) in st.files
         && files[i].content == st.files[(id, refs[i].path)]
  }

  // ----- entries after an operation

  lemma InstalledEntry(s: Store, p: Payload, now: nat, t: Store)
    requires Complete(p) && Installed(s, p, now, t)
    ensures var before, after := Find(s.registry, p.manifest.packageId), Find(t.registry, p.manifest.packageId);
      && after.Some?
      && after.value.packageId == p.manifest.packageId && after.value.version == p.manifest.version
      && after.value.enabled == p.enableOnInstall
      && after.value.installedAt == (if before.Some? then before.value.installedAt else now)
      && after.value.updatedAt == now
      && after.value.required == p.manifest.required && after.value.channels == p.manifest.channels
      && after.value.counts == (|p.manifest.skills|, |p.manifest.workflows|, |p.manifest.policies|, |p.manifest.assets|)
      && after.value.rollbackAvailable && after.value.rollbackUpdatedAt == now
  {}

  lemma SwitchedEntry(s: Store, id: string, enabled: bool, now: nat, t: Store)
    requires Switched(s, id, enabled, now, t)
    ensures var before, after := Find(s.registry, id).value, Find(t.registry, id);
      && after.Some?
      && after.value.enabled == enabled && after.value.updatedAt == now
      && after.value.rollbackAvailable && after.value.rollbackUpdatedAt == now
      && after.value.packageId == id && after.value.version == before.version
      && after.value.installedAt == before.installedAt && after.value.required == before.required
      && after.value.channels == before.channels && after.value.counts == before.counts
  {}

  // A rollback brings the recorded entry back as it was, times included, but for what it says
  // of rollback.
  lemma RolledBackEntry(s: Store, id: string, now: nat, t: Store)
    requires RolledBack(s, id, now, t)
    ensures Find(t.registry, id).Some? <==> s.rollbacks[id].previousEntry.Some?
    ensures Find(t.registry, id).Some? ==>
      var before, after := s.rollbacks[id].previousEntry.value, Find(t.registry, id).value;
      && after.rollbackAvailable && after.rollbackUpdatedAt == now
      && after.packageId == before.packageId && after.version == before.version && after.enabled == before.enabled
      && after.installedAt == before.installedAt && after.updatedAt == before.updatedAt
      && after.required == before.required && after.channels == before.channels && after.counts == before.counts
  {}
}
