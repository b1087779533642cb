// Capability packages: manifests, payloads, the registry and what the store
// holds, with the validation an install goes through.
module CapModel {
  import opened Wrappers
  import opened CapPolicy
  import Utf8

  const MAX_PACKAGES: nat := 24
  const MAX_ID: nat := 48
  const MAX_VERSION: nat := 32
  const MAX_PER_SECTION: nat := 16
  const MAX_TEXT: nat := 32 * 1024
  const MAX_ASSET: nat := 64 * 1024

  datatype Section = Skills | Workflows | Policies | Assets

  // An entry of a manifest section; assets have no id of their own.
  datatype Ref = Ref(id: string, path: string)

  datatype Manifest = Manifest(
    packageId: string, version: string, required: seq<string>, channels: seq<string>,
    skills: seq<Ref>, workflows: seq<Ref>, policies: seq<Ref>, assets: seq<Ref>)
  {
    function Refs(s: Section): seq<Ref> {
      match s
      case Skills => skills
      case Workflows => workflows
      case Policies => policies
      case Assets => assets
    }
  }

  type Octet = x: nat | x < 256

  // What a file holds: text, the JSON of a policy document (of a given length),
  // or asset octets. An asset that is not valid Base64 is a Text among assets.
  datatype Content = Text(text: string) | PolicyJson(doc: Document, size: nat) | Octets(data: seq<Octet>)

  datatype File = File(path: string, content: Content)

  datatype Payload = Payload(
    manifest: Manifest, skills: seq<File>, workflows: seq<File>, policies: seq<File>, assets: seq<File>,
    enableOnInstall: bool)
  {
    function Files(s: Section): seq<File> {
      match s
      case Skills => skills
      case Workflows => workflows
      case Policies => policies
      case Assets => assets
    }
  }

  datatype Entry = Entry(
    packageId: string, version: string, enabled: bool, installedAt: nat, updatedAt: nat,
    required: seq<string>, channels: seq<string>, counts: (nat, nat, nat, nat),
    rollbackAvailable: bool, rollbackUpdatedAt: nat)

  datatype Operation = Install | Enable | Disable | Uninstall | Rollback

  datatype Record = Record(
    packageId: string, operation: Operation, capturedAt: nat,
    previousEntry: Option<Entry>, previousBundle: Option<Payload>)

  datatype Failure = InvalidPayload | InvalidId | NotInstalled | BundleMissing | BundleUnreadable | BadPolicy
                   | MissingCapability | WorkflowConflict | PolicyConflict | NoRollback | TooManyPackages

  // ----- the store

  // Every path the Standard layout uses, with the typed value at it. A package's
  // own files are keyed by package id and path within the package.
  datatype Store = Store(
    registry: seq<Entry>,
    manifests: map<string, Manifest>,
    files: map<(string, string), Content>,
    rollbacks: map<string, Record>)

  const EMPTY := Store([], map[], map[], map[])

  function Find(entries: seq<Entry>, id: string): (r: Option<Entry>)
    ensures r.Some? ==> r.value in entries && r.value.packageId == id
    ensures r.None? ==> forall e :: e in entries ==> e.packageId != id
  {
    if entries == [] then None
    else if entries[0].packageId == id then Some(entries[0])
    else Find(entries[1..], id)
  }

  // The files a section of the manifest names, in its order; None if one is missing.
  function LoadFiles(st: Store, id: string, refs: seq<Ref>): Option<seq<File>> {
    if forall r :: r in refs ==> (id, r.path) in st.files
    then Some(seq(|refs|, i requires 0 <= i < |refs| && (id, refs[i].path) in st.files =>
                            File(refs[i].path, st.files[(id, refs[i].path)])))
    else None
  }

  // The bundle of a package: absent, readable, or broken.
  function Load(st: Store, id: string): Result<Option<Payload>, Failure> {
    if id !in st.manifests then Ok(None) else
    var m := st.manifests[id];
    match (LoadFiles(st, id, m.skills), LoadFiles(st, id, m.workflows),
           LoadFiles(st, id, m.policies), LoadFiles(st, id, m.assets))
    case (Some(s), Some(w), Some(p), Some(a)) => Ok(Some(Payload(m, s, w, p, a, false)))
    case _ => Err(BundleUnreadable)
  }

  // The same without the assets, which need not be there.
  function LoadWithoutAssets(st: Store, id: string): Result<Option<Payload>, Failure> {
    if id !in st.manifests then Ok(None) else
    var m := st.manifests[id];
    match (LoadFiles(st, id, m.skills), LoadFiles(st, id, m.workflows), LoadFiles(st, id, m.policies))
    case (Some(s), Some(w), Some(p)) => Ok(Some(Payload(m, s, w, p, [], false)))
    case _ => Err(BundleUnreadable)
  }

  // A bundle loads when it loads without its assets and they are all there.
  lemma AssetsApart(st: Store, id: string)
    ensures Load(st, id).Ok? <==>
            LoadWithoutAssets(st, id).Ok? && (id in st.manifests ==> LoadFiles(st, id, st.manifests[id].assets).Some?)
    ensures Load(st, id).Ok? && Load(st, id).value.Some? ==>
            LoadWithoutAssets(st, id) == Ok(Some(Load(st, id).value.value.(assets := [])))
  {}

  // The policy documents of a list of files; None if one does not parse.
  function ParsePolicies(files: seq<File>): Option<seq<Document>> {
    if forall f :: f in files ==> f.content.PolicyJson?
    then Some(seq(|files|, i requires 0 <= i < |files| && files[i].content.PolicyJson? => files[i].content.doc))
    else None
  }

  // ----- identifiers and paths

  predicate IsSpace(c: char) {
    var n := c as int;
    9 <= n <= 13 || n == 0x20 || n == 0x85 || n == 0xA0 || n == 0x1680 || 0x2000 <= n <= 0x200A
    || n == 0x2028 || n == 0x2029 || n == 0x202F || n == 0x205F || n == 0x3000
  }

  function TrimLeft(s: string): string {
    if s != "" && IsSpace(s[0]) then TrimLeft(s[1..]) else s
  }

  function TrimRight(s: string): string {
    if s != "" && IsSpace(s[|s| - 1]) then TrimRight(s[..|s| - 1]) else s
  }

  function Trim(s: string): string { TrimRight(TrimLeft(s)) }

  predicate IdChar(c: char) {
    'a' <= c <= 'z' || 'A' <= c <= 'Z' || '0' <= c <= '9' || c == '_' || c == '-' || c == '.'
  }

  function Normalize(value: string, max: nat): Option<string> {
    var t := Trim(value);
    if 0 < |t| <= max && forall c :: c in t ==> IdChar(c) then Some(t) else None
  }

  function Prefix(s: Section): string {
    match s
    case Skills => "skills/"
    case Workflows => "workflows/"
    case Policies => "policies/"
    case Assets => "assets/"
  }

  predicate SafePath(path: string, prefix: string) {
    && prefix <= path
    && (forall i :: 0 <= i < |path| - 1 ==> !(path[i] == '.' && path[i + 1] == '.'))
    && path != "" && path[0] != '/' && path[|path| - 1] != '/' && Trim(path) != ""
  }

  // ----- validation of a payload

  predicate DistinctIds(refs: seq<Ref>) {
    forall i, j :: 0 <= i < j < |refs| ==> refs[i].id != refs[j].id
  }

  predicate DistinctRefPaths(refs: seq<Ref>) {
    forall i, j :: 0 <= i < j < |refs| ==> refs[i].path != refs[j].path
  }

  predicate DistinctPaths(files: seq<File>) {
    forall i, j :: 0 <= i < j < |files| ==> files[i].path != files[j].path
  }

  predicate ValidRefs(refs: seq<Ref>, s: Section) {
    && |refs| <= MAX_PER_SECTION
    && (forall r :: r in refs ==> SafePath(r.path, Prefix(s)))
    && if s == Assets then DistinctRefPaths(refs)
       else DistinctIds(refs) && forall r :: r in refs ==> Normalize(r.id, MAX_ID).Some?
  }

  predicate ValidManifest(m: Manifest, compiled: set<string>) {
    && Normalize(m.packageId, MAX_ID).Some? && Normalize(m.version, MAX_VERSION).Some?
    && |m.channels| <= MAX_PER_SECTION
    && ValidRefs(m.skills, Skills) && ValidRefs(m.workflows, Workflows)
    && ValidRefs(m.policies, Policies) && ValidRefs(m.assets, Assets)
    && forall c :: c in m.channels ==> c == "*" || c in compiled
  }

  predicate ValidContent(c: Content, s: Section) {
    match c
    case Text(t) => s != Assets && 0 < Utf8.Len(t) <= MAX_TEXT
    case PolicyJson(_, size) => s != Assets && 0 < size <= MAX_TEXT
    case Octets(data) => s == Assets && 0 < |data| <= MAX_ASSET
  }

  predicate ValidFiles(files: seq<File>, s: Section) {
    && DistinctPaths(files)
    && forall f :: f in files ==> SafePath(f.path, Prefix(s)) && ValidContent(f.content, s)
  }

  predicate AllPresent(refs: seq<Ref>, files: seq<File>) {
    forall r :: r in refs ==> exists f :: f in files && f.path == r.path
  }

  predicate ValidDocument(d: Document) {
    && (forall o :: o in d.overlays ==> Normalize(o.tool, MAX_ID).Some?)
    && forall i, j :: 0 <= i < j < |d.overlays| ==> d.overlays[i].tool != d.overlays[j].tool
  }

  // The document behind a policy entry parses, carries its id and is valid.
  predicate ValidPolicy(r: Ref, files: seq<File>) {
    forall f :: f in files && f.path == r.path ==>
      f.content.PolicyJson? && f.content.doc.policyId == r.id && ValidDocument(f.content.doc)
  }

  predicate ValidPayload(p: Payload, compiled: set<string>) {
    && ValidManifest(p.manifest, compiled)
    && ValidFiles(p.skills, Skills) && ValidFiles(p.workflows, Workflows)
    && ValidFiles(p.policies, Policies) && ValidFiles(p.assets, Assets)
    && AllPresent(p.manifest.skills, p.skills) && AllPresent(p.manifest.workflows, p.workflows)
    && AllPresent(p.manifest.policies, p.policies) && AllPresent(p.manifest.assets, p.assets)
    && forall r :: r in p.manifest.policies ==> ValidPolicy(r, p.policies)
  }

  // ----- channels and capabilities

  predicate ChannelsOverlap(left: seq<string>, right: seq<string>) {
    left == [] || right == [] || "*" in left || "*" in right || exists c :: c in left && c in right
  }

  predicate SupportsChannel(m: Manifest, channel: string) {
    m.channels == [] || "*" in m.channels || channel in m.channels
  }

  // Two packages that can both be active on some channel overlap.
  lemma SharedChannelMeansOverlap(m: Manifest, n: Manifest, channel: string)
    requires SupportsChannel(m, channel) && SupportsChannel(n, channel)
    ensures ChannelsOverlap(m.channels, n.channels)
  {}

  predicate HasCapabilities(m: Manifest, caps: seq<string>) {
    forall c :: c in m.required ==> c in caps
  }

  function BuildEntry(m: Manifest, enabled: bool, installedAt: nat, now: nat): Entry {
    Entry(m.packageId, m.version, enabled, installedAt, now, m.required, m.channels,
          (|m.skills|, |m.workflows|, |m.policies|, |m.assets|), true, now)
  }
}
