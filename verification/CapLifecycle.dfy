// Install, enable, disable, uninstall and roll back, and the policy set built
// from whatever is active. Each operation keeps the store in good order, also
// when it fails part way, so the policy set can always be built.
module CapLifecycle {
  import opened Wrappers
  import opened CapPolicy
  import opened CapModel
  import opened CapRegistry
  import opened CapStore

  datatype Outcome = Outcome(packageId: string, operation: Operation, version: string, enabled: bool)

  // ----- conflicts with what is enabled

  // The enabled packages, other than exclude, that share a channel with m.
  function Rivals(st: Store, entries: seq<Entry>, m: Manifest, exclude: string): set<string> {
    set e | e in entries && e.enabled && e.packageId != exclude && e.packageId in st.manifests
            && ChannelsOverlap(m.channels, st.manifests[e.packageId].channels) :: e.packageId
  }

  function OverlaysOf(st: Store, ids: set<string>): set<Overlay> {
    set id, o | id in ids && o in PackageOverlays(st, id) :: o
  }

  ghost predicate NoWorkflowClash(st: Store, m: Manifest, rivals: set<string>) {
    forall q :: q in rivals && q in st.manifests ==> !SharesWorkflow(m, st.manifests[q])
  }

  // The test a package passes to be enabled: no workflow id of a rival, and
  // all the rivals' overlays together with its own are consistent.
  ghost predicate Admissible(st: Store, entries: seq<Entry>, m: Manifest, os: set<Overlay>, exclude: string) {
    var rivals := Rivals(st, entries, m, exclude);
    NoWorkflowClash(st, m, rivals) && Consistent(OverlaysOf(st, rivals) + os)
  }

  lemma RivalsStep(st: Store, entries: seq<Entry>, m: Manifest, exclude: string, i: nat)
    requires i < |entries|
    ensures var e, before := entries[i], Rivals(st, entries[..i], m, exclude);
      Rivals(st, entries[..i + 1], m, exclude) ==
      before + if e.enabled && e.packageId != exclude && e.packageId in st.manifests
                  && ChannelsOverlap(m.channels, st.manifests[e.packageId].channels) then {e.packageId} else {}
  {
    assert entries[..i + 1] == entries[..i] + [entries[i]];
  }

  lemma OverlaysOfUnion(st: Store, ids: set<string>, id: string)
    ensures OverlaysOf(st, ids + {id}) == OverlaysOf(st, ids) + PackageOverlays(st, id)
  {}

  lemma RivalsOfPrefix(st: Store, entries: seq<Entry>, m: Manifest, exclude: string, i: nat)
    requires i <= |entries|
    ensures Rivals(st, entries[..i], m, exclude) <= Rivals(st, entries, m, exclude)
    ensures OverlaysOf(st, Rivals(st, entries[..i], m, exclude)) <= OverlaysOf(st, Rivals(st, entries, m, exclude))
  {}

  // An enabled package that the test compares m with has a workflow w with the id of r.
  ghost predicate WorkflowClash(
      st: Store, entries: seq<Entry>, m: Manifest, exclude: string, e: Entry, r: Ref, w: Ref) {
    && e in entries && e.enabled && e.packageId != exclude && e.packageId in st.manifests
    && (var theirs := st.manifests[e.packageId];
        && ChannelsOverlap(m.channels, theirs.channels)
        && r in m.workflows && w in theirs.workflows && r.id == w.id)
  }

  // The workflow test fails exactly when some enabled package that shares a channel with m
  // has an entry with the id of one of the entries of m.
  lemma WorkflowTestExactly(st: Store, entries: seq<Entry>, m: Manifest, exclude: string)
    ensures !NoWorkflowClash(st, m, Rivals(st, entries, m, exclude)) <==>
            exists e, r, w :: WorkflowClash(st, entries, m, exclude, e, r, w)
  {
    var rivals := Rivals(st, entries, m, exclude);
    if q :| q in rivals && q in st.manifests && SharesWorkflow(m, st.manifests[q]) {
      var e :| e in entries && e.packageId == q && e.enabled && q != exclude;
      var r, w :| r in m.workflows && w in st.manifests[q].workflows && r.id == w.id;
      assert WorkflowClash(st, entries, m, exclude, e, r, w);
    }
    if e, r, w :| WorkflowClash(st, entries, m, exclude, e, r, w) {
      assert e.packageId in rivals && SharesWorkflow(m, st.manifests[e.packageId]);
    }
  }

  // An admissible package agrees with every enabled package it meets, and with itself.
  lemma AdmissibleMeansCompatible(
      st: Store, entries: seq<Entry>, m: Manifest, os: set<Overlay>, exclude: string, q: string)
    requires Admissible(st, entries, m, os, exclude)
    requires q != exclude && q in st.manifests && Enabled(entries, q)
    ensures Compatible(m, os, st.manifests[q], PackageOverlays(st, q))
  {
    if ChannelsOverlap(m.channels, st.manifests[q].channels) {
      var rivals := Rivals(st, entries, m, exclude);
      assert Find(entries, q).value in entries;
      assert q in rivals;
      var all := OverlaysOf(st, rivals);
      assert PackageOverlays(st, q) <= all;
      ConsistentUnion(all, os);
      forall o, p, a | o in os && p in PackageOverlays(st, q) ensures !Opposed(o, p, a) && !Opposed(p, o, a) {
        assert p in all;
      }
    }
  }

  // Admission is exactly: no clash and agreement with each rival, agreement
  // with itself, and agreement of the rivals among themselves.
  lemma AdmissibleExactly(st: Store, entries: seq<Entry>, m: Manifest, os: set<Overlay>, exclude: string)
    ensures Admissible(st, entries, m, os, exclude) <==>
            var rivals := Rivals(st, entries, m, exclude);
            && NoWorkflowClash(st, m, rivals)
            && (forall q :: q in rivals ==> CrossConsistent(PackageOverlays(st, q), os))
            && Consistent(os)
            && Consistent(OverlaysOf(st, rivals))
  {
    var rivals := Rivals(st, entries, m, exclude);
    var all := OverlaysOf(st, rivals);
    ConsistentUnion(all, os);
    if CrossConsistent(all, os) {
      forall q | q in rivals ensures CrossConsistent(PackageOverlays(st, q), os) {
        assert PackageOverlays(st, q) <= all;
      }
    }
    if forall q :: q in rivals ==> CrossConsistent(PackageOverlays(st, q), os) {
      forall o, p, a | o in all && p in os ensures !Opposed(o, p, a) && !Opposed(p, o, a) {
        var q :| q in rivals && o in PackageOverlays(st, q);
        assert CrossConsistent(PackageOverlays(st, q), os);
      }
    }
  }

  // ----- what each operation leaves behind

  function ClearedFiles(files: Files, id: string): Files {
    map k | k in files && k.0 != id :: files[k]
  }

  // Nothing is removed of a package whose manifest is gone.
  function Cleared(st: Store, id: string): Store {
    if id in st.manifests then st.(manifests := st.manifests - {id}, files := ClearedFiles(st.files, id)) else st
  }

  function WithBundle(st: Store, p: Payload): Store {
    var id := p.manifest.packageId;
    st.(manifests := st.manifests[id := p.manifest], files := WrittenAll(st.files, id, p))
  }

  function Stamp(e: Entry, now: nat): Entry { e.(rollbackAvailable := true, rollbackUpdatedAt := now) }

  // Equal but for the fields that describe rollback.
  ghost predicate SameButRollback(e: Option<Entry>, f: Option<Entry>) {
    match (e, f)
    case (Some(a), Some(b)) =>
      a.(rollbackAvailable := b.rollbackAvailable, rollbackUpdatedAt := b.rollbackUpdatedAt) == b
    case _ => e == f
  }

  // The entry and bundle that id had in s are on record in t.
  ghost predicate Recorded(s: Store, t: Store, id: string, op: Operation, now: nat) {
    && Load(s, id).Ok? && id in t.rollbacks
    && t.rollbacks[id] == Record(id, op, now, Find(s.registry, id), Load(s, id).value)
  }

  function Recording(s: Store, id: string, op: Operation, now: nat): Store
    requires Load(s, id).Ok?
  {
    s.(rollbacks := s.rollbacks[id := Record(id, op, now, Find(s.registry, id), Load(s, id).value)])
  }

  function Discarded(s: Store, id: string, op: Operation, now: nat): Store
    requires Load(s, id).Ok?
  {
    Cleared(Recording(s, id, op, now), id)
  }

  ghost predicate Installed(s: Store, p: Payload, now: nat, t: Store)
    requires Complete(p)
  {
    var id := p.manifest.packageId;
    && OthersSame(s, t, id) && Recorded(s, t, id, Install, now)
    && Load(t, id) == Ok(Some(Normal(p)))
    && Find(t.registry, id) == Some(BuildEntry(p.manifest, p.enableOnInstall,
         if Find(s.registry, id).Some? then Find(s.registry, id).value.installedAt else now, now))
  }

  // The flag of an installed package changed.
  ghost predicate Switched(s: Store, id: string, enabled: bool, now: nat, t: Store) {
    && Find(s.registry, id).Some?
    && OthersSame(s, t, id) && Recorded(s, t, id, if enabled then Enable else Disable, now)
    && Load(t, id) == Load(s, id)
    && var e := Find(s.registry, id).value;
       Find(t.registry, id) == Some(Stamp(e.(enabled := enabled, updatedAt := now), now))
  }

  ghost predicate NoFiles(st: Store, id: string) { forall path: string :: (id, path) !in st.files }

  ghost predicate Uninstalled(s: Store, id: string, now: nat, t: Store) {
    && OthersSame(s, t, id) && Recorded(s, t, id, Uninstall, now)
    && (id in s.manifests ==> NoFiles(t, id))
    && Load(t, id) == Ok(None) && Find(t.registry, id).None?
  }

  // The recorded entry and bundle are back, and what they replaced is recorded.
  ghost predicate RolledBack(s: Store, id: string, now: nat, t: Store) {
    && id in s.rollbacks
    && OthersSame(s, t, id) && Recorded(s, t, id, Rollback, now)
    && Load(t, id) == Ok(s.rollbacks[id].previousBundle)
    && Find(t.registry, id) == (match s.rollbacks[id].previousEntry
                                case None => None
                                case Some(e) => Some(Stamp(e, now)))
  }

  // Rolling back after any recorded change undoes it; rolling back again redoes it.
  lemma RollbackUndoes(s: Store, t: Store, u: Store, id: string, op: Operation, now: nat, later: nat)
    requires OthersSame(s, t, id) && Recorded(s, t, id, op, now) && RolledBack(t, id, later, u)
    ensures Load(u, id) == Load(s, id) && SameButRollback(Find(u.registry, id), Find(s.registry, id))
    ensures OthersSame(s, u, id)
  {
    forall q | q != id ensures SamePackage(s, u, q) {
      assert SamePackage(s, t, q) && SamePackage(t, u, q);
    }
  }

  lemma SecondRollbackRedoes(t: Store, u: Store, v: Store, id: string, later: nat, latest: nat)
    requires RolledBack(t, id, later, u) && RolledBack(u, id, latest, v)
    ensures Load(v, id) == Load(t, id) && SameButRollback(Find(v.registry, id), Find(t.registry, id))
    ensures OthersSame(t, v, id)
  {
    RollbackUndoes(t, u, v, id, Rollback, later, latest);
  }

  // ----- clearing and writing one package

  lemma ClearedLemma(st: Store, id: string)
    ensures OthersSame(st, Cleared(st, id), id) && id !in Cleared(st, id).manifests
    ensures id in st.manifests ==> NoFiles(Cleared(st, id), id)
  {}

  lemma WithBundleLemma(st: Store, p: Payload, compiled: set<string>)
    requires ValidPayload(p, compiled)
    ensures OthersSame(st, WithBundle(st, p), p.manifest.packageId)
    ensures Load(WithBundle(st, p), p.manifest.packageId) == Ok(Some(Normal(p)))
  {
    hide WrittenAll, ValidPayload, Load, Normal;
    WithBundleElsewhere(st, p);
    LoadWritten(WithBundle(st, p), st.files, p, compiled);
  }

  lemma WithBundleElsewhere(st: Store, p: Payload)
    ensures OthersSame(st, WithBundle(st, p), p.manifest.packageId)
  {
    hide WrittenAll;
    var id, t := p.manifest.packageId, WithBundle(st, p);
    forall q, path: string | q != id
      ensures (q, path) in st.files <==> (q, path) in t.files
      ensures (q, path) in st.files ==> st.files[(q, path)] == t.files[(q, path)]
    {
      WrittenAllElsewhere(st.files, id, p, (q, path));
    }
  }

  lemma PickedContent(refs: seq<Ref>, files: seq<File>, f: File)
    requires AllPresent(refs, files) && f in Pick(refs, files)
    ensures exists g :: g in files && g.content == f.content
  {
    var i :| 0 <= i < |refs| && Pick(refs, files)[i] == f;
    assert refs[i] in refs;
    assert f.content == ContentFor(files, refs[i].path);
  }

  lemma ParsedDocument(files: seq<File>, f: File)
    requires ParsePolicies(files).Some? && f in files
    ensures f.content.PolicyJson? && f.content.doc in ParsePolicies(files).value
  {
    var j :| 0 <= j < |files| && files[j] == f;
    assert ParsePolicies(files).value[j] == f.content.doc;
  }

  // The policies picked for the manifest parse, and say nothing new.
  lemma PickedPolicies(refs: seq<Ref>, files: seq<File>)
    requires AllPresent(refs, files) && ParsePolicies(files).Some?
    ensures ParsePolicies(Pick(refs, files)).Some?
    ensures Overlays(ParsePolicies(Pick(refs, files)).value) <= Overlays(ParsePolicies(files).value)
  {
    var picked, docs := Pick(refs, files), ParsePolicies(files).value;
    forall f | f in picked ensures f.content.PolicyJson? && f.content.doc in docs {
      PickedContent(refs, files, f);
      var g :| g in files && g.content == f.content;
      ParsedDocument(files, g);
    }
    var loaded := ParsePolicies(picked).value;
    forall d | d in loaded ensures d in docs {
      var i :| 0 <= i < |loaded| && loaded[i] == d;
      assert picked[i] in picked;
    }
  }

  // A written package is readable, and brings no overlay that was not checked.
  lemma WrittenIsReadable(t: Store, p: Payload, compiled: set<string>)
    requires ValidPayload(p, compiled) && ParsePolicies(p.policies).Some?
    requires p.manifest.packageId in t.manifests && t.manifests[p.manifest.packageId] == p.manifest
    requires Load(t, p.manifest.packageId) == Ok(Some(Normal(p)))
    ensures Readable(t, p.manifest.packageId)
    ensures PackageOverlays(t, p.manifest.packageId) <= Overlays(ParsePolicies(p.policies).value)
  {
    hide Load, ParsePolicies, PackageOverlays;
    PickedPolicies(p.manifest.policies, p.policies);
    ParsedOverlays(t, p.manifest.packageId);
  }

  lemma CompatibleSubset(m: Manifest, os: set<Overlay>, ps: set<Overlay>, n: Manifest, qs: set<Overlay>)
    requires ps <= os && Compatible(m, os, n, qs)
    ensures Compatible(m, ps, n, qs)
  {}

  // A store whose package id was admitted with the overlays os.
  lemma AdmittedIsOk(s: Store, entries: seq<Entry>, t: Store, id: string, m: Manifest, os: set<Overlay>)
    requires id in t.manifests && t.manifests[id] == m && PackageOverlays(t, id) <= os
    requires Readable(t, id) && (id in t.rollbacks ==> RecordOk(id, t.rollbacks[id]))
    requires forall q :: q != id ==> Find(entries, q) == Find(s.registry, q)
    requires Enabled(t.registry, id) ==> Admissible(s, entries, m, os, id)
    ensures NewcomerOk(s, t, id)
  {
    hide Load, PackageOverlays, Readable, Compatible, RecordOk, Rivals, OverlaysOf;
    if Live(t, id) {
      AdmissibleExactly(s, entries, m, os, id);
      ConsistentSubset(os, PackageOverlays(t, id));
      forall q | q != id && Live(s, q)
        ensures Compatible(m, PackageOverlays(t, id), s.manifests[q], PackageOverlays(s, q))
      {
        assert Enabled(entries, q);
        AdmissibleMeansCompatible(s, entries, m, os, id, q);
        CompatibleSubset(m, os, PackageOverlays(t, id), s.manifests[q], PackageOverlays(s, q));
      }
    }
  }

  // Registries that agree on every package but id.
  ghost predicate Agree(s: seq<Entry>, t: seq<Entry>, id: string) {
    forall q :: q != id ==> Find(s, q) == Find(t, q)
  }

  lemma OthersSameVia(s: Store, t: Store, u: Store, id: string)
    requires OthersSame(s, t, id) && OthersSame(t, u, id)
    ensures OthersSame(s, u, id)
  {
    forall q | q != id ensures SamePackage(s, u, q) {
      assert SamePackage(s, t, q) && SamePackage(t, u, q);
    }
  }

  // The package's files are gone or its entry is off: nothing to admit.
  lemma QuietStaysGood(s: Store, t: Store, id: string)
    requires Good(s) && OthersSame(s, t, id) && Sorted(t.registry) && |t.registry| <= MAX_PACKAGES
    requires id in t.rollbacks ==> RecordOk(id, t.rollbacks[id])
    requires id !in t.manifests || (Readable(t, id) && !Enabled(t.registry, id))
    ensures Good(t)
  {
    hide Good, Load, Readable, OthersSame, RecordOk;
    StaysGood(s, t, id);
  }

  // Payload p of package id is written over a store x that agrees with the good
  // store b on all other packages, and reg becomes the registry.
  lemma BundleStaysGood(b: Store, x: Store, p: Payload, compiled: set<string>,
                        entries: seq<Entry>, reg: seq<Entry>, t: Store)
    requires ValidPayload(p, compiled) && ParsePolicies(p.policies).Some?
    requires Good(b) && OthersSame(b, x, p.manifest.packageId)
    requires t == WithBundle(x, p).(registry := reg)
    requires p.manifest.packageId in x.rollbacks ==> RecordOk(p.manifest.packageId, x.rollbacks[p.manifest.packageId])
    requires Sorted(reg) && |reg| <= MAX_PACKAGES
    requires Agree(entries, b.registry, p.manifest.packageId) && Agree(reg, b.registry, p.manifest.packageId)
    requires Enabled(reg, p.manifest.packageId) ==>
      Admissible(b, entries, p.manifest, Overlays(ParsePolicies(p.policies).value), p.manifest.packageId)
    ensures Good(t) && OthersSame(b, t, p.manifest.packageId)
    ensures Load(t, p.manifest.packageId) == Ok(Some(Normal(p)))
  {
    var id, y := p.manifest.packageId, WithBundle(x, p);
    WithBundleLemma(x, p, compiled);
    RegistryApart(b, x, y, t, id);
    hide Good, Load, Readable, RecordOk, Admissible, PackageOverlays, WrittenAll, ValidPayload, ParsePolicies;
    WrittenIsReadable(t, p, compiled);
    AdmittedIsOk(b, entries, t, id, p.manifest, Overlays(ParsePolicies(p.policies).value));
    StaysGood(b, t, id);
  }

  lemma RegistryApart(b: Store, x: Store, y: Store, t: Store, id: string)
    requires OthersSame(b, x, id) && OthersSame(x, y, id)
    requires t == y.(registry := t.registry) && Agree(t.registry, b.registry, id)
    ensures OthersSame(b, t, id) && Load(t, id) == Load(y, id)
  {
    OthersSameVia(b, x, y, id);
    forall q | q != id ensures SamePackage(b, t, q) { assert SamePackage(b, y, q); }
    SameLoad(y, t, id);
  }

  // ----- the steps an operation takes

  lemma GoodLoads(s: Store, id: string)
    requires Good(s)
    ensures Load(s, id).Ok?
    ensures Load(s, id).value.Some? ==>
      Load(s, id).value.value.manifest.packageId == id && IsLoaded(Load(s, id).value.value)
  {
    hide ParsePolicies, Sorted, PackageOverlays, Consistent, PairOk, RecordOk;
    if id in s.manifests {
      assert Readable(s, id);
      LoadIsLoaded(s, id);
    }
  }

  lemma RecordingLemma(s: Store, id: string, op: Operation, now: nat)
    requires Good(s)
    ensures Load(s, id).Ok?
    ensures var t := Recording(s, id, op, now);
      OthersSame(s, t, id) && SamePackage(s, t, id) && Recorded(s, t, id, op, now) && RecordOk(id, t.rollbacks[id])
  {
    GoodLoads(s, id);
    hide Good, Load, IsLoaded;
  }

  // The previous state is on record and the package's files are removed.
  lemma DiscardedLemma(s: Store, id: string, op: Operation, now: nat)
    requires Good(s)
    ensures Load(s, id).Ok?
    ensures var t := Discarded(s, id, op, now);
      && OthersSame(s, t, id) && Recorded(s, t, id, op, now) && RecordOk(id, t.rollbacks[id])
      && id !in t.manifests && (id in s.manifests ==> NoFiles(t, id))
      && t.registry == s.registry && Good(t)
  {
    RecordingLemma(s, id, op, now);
    var x := Recording(s, id, op, now);
    var t := Discarded(s, id, op, now);
    assert Sorted(s.registry) && |s.registry| <= MAX_PACKAGES;
    hide Load, RecordOk, Good, SamePackage, NoFiles;
    ClearedLemma(x, id);
    OthersSameVia(s, x, t, id);
    QuietStaysGood(s, t, id);
  }

  lemma WithRegistry(s: Store, t: Store, id: string, reg: seq<Entry>)
    requires OthersSame(s, t, id) && Agree(s.registry, reg, id)
    ensures OthersSame(s, t.(registry := reg), id) && Load(t.(registry := reg), id) == Load(t, id)
  {
    var u := t.(registry := reg);
    forall q | q != id ensures SamePackage(s, u, q) { assert SamePackage(s, t, q); }
    assert SamePackage(t, u, id);
    SameLoad(t, u, id);
  }

  // ----- when a package may be enabled or written

  // What must hold of payload p for it to be enabled beside the given entries.
  ghost predicate MayEnable(s: Store, entries: seq<Entry>, p: Payload, caps: seq<string>) {
    && ParsePolicies(p.policies).Some?
    && HasCapabilities(p.manifest, caps)
    && Admissible(s, entries, p.manifest, Overlays(ParsePolicies(p.policies).value), p.manifest.packageId)
  }

  // There is room for an entry of id.
  predicate HasRoom(entries: seq<Entry>, id: string) {
    Find(entries, id).Some? || |entries| < MAX_PACKAGES
  }

  ghost predicate MayInstall(s: Store, p: Payload, caps: seq<string>, compiled: set<string>) {
    && ValidPayload(p, compiled) && ParsePolicies(p.policies).Some?
    && (p.enableOnInstall ==> MayEnable(s, s.registry, p, caps))
  }

  ghost predicate MaySwitch(s: Store, id: string, enabled: bool, caps: seq<string>) {
    && Find(s.registry, id).Some? && Load(s, id).Ok? && Load(s, id).value.Some?
    && (enabled ==> MayEnable(s, s.registry, Load(s, id).value.value, caps))
  }

  // The recorded bundle, if any, passes the checks of an install.
  ghost predicate Restorable(s: Store, entries: seq<Entry>, r: Record, caps: seq<string>, compiled: set<string>) {
    r.previousBundle.Some? ==>
      && ValidPayload(r.previousBundle.value, compiled) && ParsePolicies(r.previousBundle.value.policies).Some?
      && (r.previousEntry.Some? && r.previousEntry.value.enabled ==>
           MayEnable(s, entries, r.previousBundle.value, caps))
  }

  ghost predicate MayRestore(s: Store, id: string, caps: seq<string>, compiled: set<string>)
    requires id in s.rollbacks
  {
    && Restorable(s, s.registry, s.rollbacks[id], caps, compiled)
    && (s.rollbacks[id].previousEntry.Some? ==> HasRoom(s.registry, id))
  }

  lemma RivalsByFind(st: Store, entries: seq<Entry>, m: Manifest, exclude: string, q: string)
    requires Sorted(entries)
    ensures q in Rivals(st, entries, m, exclude) <==>
            && q != exclude && Enabled(entries, q) && q in st.manifests
            && ChannelsOverlap(m.channels, st.manifests[q].channels)
  {
    if q in Rivals(st, entries, m, exclude) {
      var e :| e in entries && e.enabled && e.packageId == q;
      FindSorted(entries, e);
    }
  }

  lemma RivalsElsewhere(s: Store, t: Store, id: string, es: seq<Entry>, et: seq<Entry>, m: Manifest)
    requires OthersSame(s, t, id) && Sorted(es) && Sorted(et) && Agree(es, et, id)
    ensures Rivals(s, es, m, id) == Rivals(t, et, m, id)
  {
    forall q ensures q in Rivals(s, es, m, id) <==> q in Rivals(t, et, m, id) {
      RivalsByFind(s, es, m, id, q);
      RivalsByFind(t, et, m, id, q);
      hide Rivals, Sorted;
      if q != id { assert SamePackage(s, t, q) && Find(es, q) == Find(et, q); }
    }
  }

  lemma OverlaysElsewhere(s: Store, t: Store, id: string, ids: set<string>)
    requires OthersSame(s, t, id) && id !in ids
    ensures OverlaysOf(s, ids) == OverlaysOf(t, ids)
  {
    hide PackageOverlays;
    forall q | q in ids ensures PackageOverlays(s, q) == PackageOverlays(t, q) {
      assert SamePackage(s, t, q);
      SameLoad(s, t, q);
    }
  }

  // The excluded package has no say in the test.
  lemma AdmissibleElsewhere(
      s: Store, t: Store, id: string, es: seq<Entry>, et: seq<Entry>, m: Manifest, os: set<Overlay>)
    requires OthersSame(s, t, id) && Sorted(es) && Sorted(et) && Agree(es, et, id)
    ensures Admissible(s, es, m, os, id) <==> Admissible(t, et, m, os, id)
  {
    var rivals := Rivals(s, es, m, id);
    assert id !in rivals;
    RivalsElsewhere(s, t, id, es, et, m);
    OverlaysElsewhere(s, t, id, rivals);
    hide Rivals, OverlaysOf, Consistent, Sorted;
    assert forall q :: q in rivals ==> SamePackage(s, t, q);
  }

  lemma Switching(s: Store, id: string, op: Operation, now: nat, reg: seq<Entry>)
    requires Good(s) && Agree(reg, s.registry, id) && Load(s, id).Ok?
    ensures var t := Recording(s, id, op, now).(registry := reg);
      && OthersSame(s, t, id) && SamePackage(s, t, id) && Load(t, id) == Load(s, id)
      && Recorded(s, t, id, op, now) && RecordOk(id, t.rollbacks[id])
  {
    var x := Recording(s, id, op, now);
    RecordingLemma(s, id, op, now);
    hide Good, Load, RecordOk;
    WithRegistry(s, x, id, reg);
    SamePackageVia(s, x, reg, id);
    SameLoad(s, x.(registry := reg), id);
  }

  lemma SamePackageVia(s: Store, x: Store, reg: seq<Entry>, id: string)
    requires SamePackage(s, x, id)
    ensures SamePackage(s, x.(registry := reg), id)
  {}

  // An installed package keeps its bundle and changes its entry.
  lemma SwitchStaysGood(s: Store, id: string, op: Operation, now: nat, reg: seq<Entry>, caps: seq<string>)
    requires Good(s) && Load(s, id).Ok? && Load(s, id).value.Some?
    requires Sorted(reg) && |reg| <= MAX_PACKAGES && Agree(reg, s.registry, id)
    requires Enabled(reg, id) ==> MayEnable(s, s.registry, Load(s, id).value.value, caps)
    ensures var t := Recording(s, id, op, now).(registry := reg);
      Good(t) && OthersSame(s, t, id) && Load(t, id) == Load(s, id) && Recorded(s, t, id, op, now)
  {
    var t := Recording(s, id, op, now).(registry := reg);
    Switching(s, id, op, now, reg);
    SameLoad(s, t, id);
    LoadIsLoaded(s, id);
    ReadableIn(s, id);
    hide Good, Load, RecordOk, Admissible, Sorted, ParsePolicies, PackageOverlays, Readable, OthersSame, SamePackage;
    hide Recording, NewcomerOk;
    ParsedOverlays(s, id);
    if Enabled(reg, id) {
      AdmittedIsOk(s, s.registry, t, id, s.manifests[id], PackageOverlays(s, id));
    } else {
      QuietIsOk(s, t, id);
    }
    StaysGood(s, t, id);
  }

  lemma ReadableIn(s: Store, id: string)
    requires Good(s) && Load(s, id).Ok? && Load(s, id).value.Some?
    ensures id in s.manifests && Readable(s, id) && s.manifests[id].packageId == id
  {
    hide ParsePolicies;
  }

  lemma QuietIsOk(s: Store, t: Store, id: string)
    requires !Enabled(t.registry, id) && (id in t.manifests ==> Readable(t, id))
    requires id in t.rollbacks ==> RecordOk(id, t.rollbacks[id])
    ensures NewcomerOk(s, t, id)
  {}

  // A removed package is put back, or stays away, and reg becomes the registry.
  function Restored(d: Store, bundle: Option<Payload>, reg: seq<Entry>): Store {
    (if bundle.Some? then WithBundle(d, bundle.value) else d).(registry := reg)
  }

  lemma RestoredStaysGood(s: Store, id: string, now: nat, r: Record, reg: seq<Entry>, compiled: set<string>)
    requires Good(s) && RecordOk(id, r) && Load(s, id).Ok?
    requires Sorted(reg) && |reg| <= MAX_PACKAGES && Agree(reg, s.registry, id)
    requires r.previousBundle.Some? ==>
      && ValidPayload(r.previousBundle.value, compiled) && ParsePolicies(r.previousBundle.value.policies).Some?
      && (Enabled(reg, id) ==> Admissible(s, s.registry, r.previousBundle.value.manifest,
                                          Overlays(ParsePolicies(r.previousBundle.value.policies).value), id))
    ensures var t := Restored(Discarded(s, id, Rollback, now), r.previousBundle, reg);
      Good(t) && OthersSame(s, t, id) && Recorded(s, t, id, Rollback, now) && Load(t, id) == Ok(r.previousBundle)
  {
    var d := Discarded(s, id, Rollback, now);
    var t := Restored(d, r.previousBundle, reg);
    DiscardedLemma(s, id, Rollback, now);
    WithRegistry(s, d, id, reg);
    if r.previousBundle.Some? {
      var p := r.previousBundle.value;
      assert p.manifest.packageId == id && IsLoaded(p);
      hide Good, Load, Readable, RecordOk, Admissible, PackageOverlays, WrittenAll, ValidPayload, ParsePolicies;
      hide Cleared, Recording, Sorted, IsLoaded;
      BundleStaysGood(s, d, p, compiled, s.registry, reg, t);
      NormalOfLoaded(p, compiled);
    } else {
      hide Good, Readable, RecordOk, Admissible, Sorted;
      QuietStaysGood(s, t, id);
    }
  }

  // It makes no difference that the package was taken away before the checks.
  lemma RestorableElsewhere(
      s: Store, t: Store, id: string, entries: seq<Entry>, r: Record, caps: seq<string>, compiled: set<string>)
    requires OthersSame(s, t, id) && Sorted(s.registry) && Sorted(entries) && Agree(s.registry, entries, id)
    requires RecordOk(id, r)
    ensures Restorable(s, s.registry, r, caps, compiled) <==> Restorable(t, entries, r, caps, compiled)
  {
    if r.previousBundle.Some? && ParsePolicies(r.previousBundle.value.policies).Some? {
      var p := r.previousBundle.value;
      AdmissibleElsewhere(s, t, id, s.registry, entries, p.manifest, Overlays(ParsePolicies(p.policies).value));
    }
    hide OthersSame, Sorted, Admissible, ParsePolicies, ValidPayload;
  }

  // The other entries with the recorded one, if any.
  function EntriesAfter(others: seq<Entry>, entry: Option<Entry>, now: nat): seq<Entry> {
    if entry.Some? then Upsert(others, Stamp(entry.value, now)) else others
  }

  lemma EntriesAfterLemma(entries: seq<Entry>, id: string, r: Record, now: nat)
    requires Sorted(entries) && |entries| <= MAX_PACKAGES && RecordOk(id, r)
    ensures var after := EntriesAfter(Remove(entries, id), r.previousEntry, now);
      && Sorted(after) && Agree(after, entries, id)
      && Find(after, id) == (match r.previousEntry
                             case None => None
                             case Some(e) => Some(Stamp(e, now)))
      && (|after| <= MAX_PACKAGES <==> (r.previousEntry.Some? ==> HasRoom(entries, id)))
      && (Find(entries, id).Some? ==> |after| <= MAX_PACKAGES)
  {
    RemoveLemma(entries, id);
    hide Sorted, RecordOk;
    if r.previousEntry.Some? {
      assert r.previousEntry.value.packageId == id by { RecordedId(id, r); }
      UpsertLemma(Remove(entries, id), Stamp(r.previousEntry.value, now));
    }
  }

  lemma RecordedId(id: string, r: Record)
    requires RecordOk(id, r) && r.previousEntry.Some?
    ensures r.previousEntry.value.packageId == id
  {}

  // What is put back, whether or not the registry took the entry.
  lemma RestoredIsRolledBack(s: Store, id: string, now: nat, reg: seq<Entry>, written: bool,
                             caps: seq<string>, compiled: set<string>)
    requires Good(s) && id in s.rollbacks && RecordOk(id, s.rollbacks[id]) && Load(s, id).Ok?
    requires Restorable(s, s.registry, s.rollbacks[id], caps, compiled)
    requires Sorted(s.registry) && |s.registry| <= MAX_PACKAGES
    requires var after := EntriesAfter(Remove(s.registry, id), s.rollbacks[id].previousEntry, now);
      (written <==> |after| <= MAX_PACKAGES) && reg == if written then after else s.registry
    ensures var t := Restored(Discarded(s, id, Rollback, now), s.rollbacks[id].previousBundle, reg);
      && Good(t) && OthersSame(s, t, id) && Recorded(s, t, id, Rollback, now)
      && Load(t, id) == Ok(s.rollbacks[id].previousBundle)
      && (written ==> RolledBack(s, id, now, t))
      && (written ==> (Enabled(reg, id) <==>
                        s.rollbacks[id].previousEntry.Some? && s.rollbacks[id].previousEntry.value.enabled))
  {
    var r := s.rollbacks[id];
    EntriesAfterLemma(s.registry, id, r, now);
    hide Good, Load, OthersSame, Sorted, RecordOk, ValidPayload, ParsePolicies, Admissible, EntriesAfter, Discarded;
    RecordedManifest(id, r);
    assert Agree(reg, s.registry, id);
    RestoredStaysGood(s, id, now, r, reg, compiled);
  }

  lemma RecordedManifest(id: string, r: Record)
    requires RecordOk(id, r)
    ensures r.previousBundle.Some? ==> r.previousBundle.value.manifest.packageId == id
  {}

  // ----- an install past its checks

  function Replaced(s: Store, p: Payload, now: nat, reg: seq<Entry>): Store
    requires Load(s, p.manifest.packageId).Ok?
  {
    WithBundle(Discarded(s, p.manifest.packageId, Install, now), p).(registry := reg)
  }

  // The entry of an installed payload: first installed when the entry before it was.
  function NewEntry(s: Store, p: Payload, now: nat): Entry {
    var previous := Find(s.registry, p.manifest.packageId);
    BuildEntry(p.manifest, p.enableOnInstall, if previous.Some? then previous.value.installedAt else now, now)
  }

  lemma NewEntryLemma(s: Store, p: Payload, now: nat, reg: seq<Entry>, written: bool)
    requires Sorted(s.registry) && |s.registry| <= MAX_PACKAGES
    requires var after := Upsert(s.registry, NewEntry(s, p, now));
      (written <==> |after| <= MAX_PACKAGES) && reg == if written then after else s.registry
    ensures Sorted(reg) && |reg| <= MAX_PACKAGES && Agree(reg, s.registry, p.manifest.packageId)
    ensures written <==> HasRoom(s.registry, p.manifest.packageId)
    ensures written ==> Find(reg, p.manifest.packageId) == Some(NewEntry(s, p, now))
    ensures written ==> |reg| == |s.registry| + if Find(s.registry, p.manifest.packageId).Some? then 0 else 1
    ensures Enabled(reg, p.manifest.packageId) ==> !written || p.enableOnInstall
    ensures !written ==> Find(reg, p.manifest.packageId).None?
  {
    UpsertLemma(s.registry, NewEntry(s, p, now));
    hide Sorted, Upsert;
  }

  // What is there after it, whether or not the registry took the entry.
  lemma ReplacedIsInstalled(s: Store, p: Payload, caps: seq<string>, compiled: set<string>, now: nat,
                            reg: seq<Entry>, written: bool)
    requires Good(s) && MayInstall(s, p, caps, compiled)
    requires Load(s, p.manifest.packageId).Ok?
    requires Sorted(s.registry) && |s.registry| <= MAX_PACKAGES
    requires var after := Upsert(s.registry, NewEntry(s, p, now));
      (written <==> |after| <= MAX_PACKAGES) && reg == if written then after else s.registry
    ensures var t := Replaced(s, p, now, reg);
      && Good(t) && OthersSame(s, t, p.manifest.packageId)
      && Recorded(s, t, p.manifest.packageId, Install, now)
      && Complete(p) && Load(t, p.manifest.packageId) == Ok(Some(Normal(p)))
      && (written <==> HasRoom(s.registry, p.manifest.packageId))
      && (written ==> Installed(s, p, now, t))
      && (written ==> |reg| == |s.registry| + if Find(s.registry, p.manifest.packageId).Some? then 0 else 1)
  {
    var id := p.manifest.packageId;
    NewEntryLemma(s, p, now, reg, written);
    DiscardedLemma(s, id, Install, now);
    hide Good, Load, OthersSame, Sorted, RecordOk, ParsePolicies, Admissible, Upsert, Discarded, NoFiles, NewEntry;
    assert Complete(p);
    hide ValidPayload, Complete, Normal, WithBundle;
    BundleStaysGood(s, Discarded(s, id, Install, now), p, compiled, s.registry, reg, Replaced(s, p, now, reg));
    SameRollbacks(s, p, now, reg);
    IsNewEntry(s, p, now);
  }

  lemma SameRollbacks(s: Store, p: Payload, now: nat, reg: seq<Entry>)
    requires Load(s, p.manifest.packageId).Ok?
    ensures Replaced(s, p, now, reg).rollbacks == Discarded(s, p.manifest.packageId, Install, now).rollbacks
  {}

  lemma IsNewEntry(s: Store, p: Payload, now: nat)
    ensures NewEntry(s, p, now) == BuildEntry(p.manifest, p.enableOnInstall,
      if Find(s.registry, p.manifest.packageId).Some? then Find(s.registry, p.manifest.packageId).value.installedAt
      else now, now)
  {}
}
