// What is written is what is loaded back, and what a store in good order is.
module CapStore {
  import opened Wrappers
  import opened CapPolicy
  import opened CapModel
  import opened CapRegistry

  type Files = map<(string, string), Content>

  const SECTIONS: seq<Section> := [Skills, Workflows, Policies, Assets]

  // ----- writing and loading a bundle

  function Written(files: Files, id: string, list: seq<File>): Files {
    if list == [] then files
    else Written(files, id, list[..|list| - 1])[(id, list[|list| - 1].path) := list[|list| - 1].content]
  }

  function WrittenAll(files: Files, id: string, p: Payload): Files {
    Written(Written(Written(Written(files, id, p.skills), id, p.workflows), id, p.policies), id, p.assets)
  }

  ghost predicate Names(list: seq<File>, path: string) { exists f :: f in list && f.path == path }

  lemma {:induction false} WrittenElsewhere(files: Files, id: string, list: seq<File>, k: (string, string))
    requires k.0 != id || !Names(list, k.1)
    ensures k in Written(files, id, list) <==> k in files
    ensures k in files ==> Written(files, id, list)[k] == files[k]
  {
    if list != [] {
      var front, last := list[..|list| - 1], list[|list| - 1];
      assert forall f :: f in front ==> f in list;
      assert last in list;
      WrittenElsewhere(files, id, front, k);
    }
  }

  lemma {:induction false} WrittenAt(files: Files, id: string, list: seq<File>, f: File)
    requires DistinctPaths(list) && f in list
    ensures (id, f.path) in Written(files, id, list) && Written(files, id, list)[(id, f.path)] == f.content
  {
    var front, last := list[..|list| - 1], list[|list| - 1];
    if f != last {
      assert f in front;
      WrittenAt(files, id, front, f);
      assert f.path != last.path;
    }
  }

  lemma PrefixesDiffer(s: Section, t: Section, path: string)
    requires s != t && SafePath(path, Prefix(s))
    ensures !SafePath(path, Prefix(t))
  {
    assert path[0] == Prefix(s)[0];
  }

  lemma NotNamed(files: seq<File>, s: Section, t: Section, path: string)
    requires ValidFiles(files, s) && s != t && SafePath(path, Prefix(t))
    ensures !Names(files, path)
  {
    forall f | f in files ensures f.path != path {
      PrefixesDiffer(s, t, f.path);
    }
  }

  ghost predicate FilesValid(p: Payload) {
    ValidFiles(p.skills, Skills) && ValidFiles(p.workflows, Workflows)
    && ValidFiles(p.policies, Policies) && ValidFiles(p.assets, Assets)
  }

  // Every file of a valid payload is found under its path afterwards.
  lemma WrittenAllAt(files: Files, id: string, p: Payload, s: Section, f: File)
    requires FilesValid(p) && f in p.Files(s)
    ensures (id, f.path) in WrittenAll(files, id, p) && WrittenAll(files, id, p)[(id, f.path)] == f.content
  {
    var k := (id, f.path);
    var f1 := Written(files, id, p.skills);
    var f2 := Written(f1, id, p.workflows);
    var f3 := Written(f2, id, p.policies);
    if s == Skills { WrittenAt(files, id, p.skills, f); }
    if s == Workflows { WrittenAt(f1, id, p.workflows, f); } else { NotNamed(p.workflows, Workflows, s, f.path); }
    if s == Policies { WrittenAt(f2, id, p.policies, f); } else { NotNamed(p.policies, Policies, s, f.path); }
    if s == Assets { WrittenAt(f3, id, p.assets, f); } else { NotNamed(p.assets, Assets, s, f.path); }
    if s != Workflows { WrittenElsewhere(f1, id, p.workflows, k); }
    if s != Policies { WrittenElsewhere(f2, id, p.policies, k); }
    if s != Assets { WrittenElsewhere(f3, id, p.assets, k); }
  }

  lemma WrittenAllElsewhere(files: Files, id: string, p: Payload, k: (string, string))
    requires k.0 != id
    ensures k in WrittenAll(files, id, p) <==> k in files
    ensures k in files ==> WrittenAll(files, id, p)[k] == files[k]
  {
    var f1 := Written(files, id, p.skills);
    var f2 := Written(f1, id, p.workflows);
    var f3 := Written(f2, id, p.policies);
    WrittenElsewhere(files, id, p.skills, k);
    WrittenElsewhere(f1, id, p.workflows, k);
    WrittenElsewhere(f2, id, p.policies, k);
    WrittenElsewhere(f3, id, p.assets, k);
  }

  // The content a payload gives for a path.
  function ContentFor(files: seq<File>, path: string): (c: Content)
    requires Names(files, path)
    ensures exists f :: f in files && f.path == path && f.content == c
  {
    if files[0].path == path then files[0].content
    else
      assert Names(files[1..], path) by {
        var f :| f in files && f.path == path;
        assert f in files[1..];
      }
      ContentFor(files[1..], path)
  }

  function Pick(refs: seq<Ref>, files: seq<File>): seq<File>
    requires AllPresent(refs, files)
  {
    seq(|refs|, i requires 0 <= i < |refs| =>
      assert refs[i] in refs;
      File(refs[i].path, ContentFor(files, refs[i].path)))
  }

  ghost predicate Complete(p: Payload) {
    && AllPresent(p.manifest.skills, p.skills) && AllPresent(p.manifest.workflows, p.workflows)
    && AllPresent(p.manifest.policies, p.policies) && AllPresent(p.manifest.assets, p.assets)
  }

  // A payload as it is loaded back: the files its manifest names, in that order.
  function Normal(p: Payload): Payload
    requires Complete(p)
  {
    Payload(p.manifest, Pick(p.manifest.skills, p.skills), Pick(p.manifest.workflows, p.workflows),
            Pick(p.manifest.policies, p.policies), Pick(p.manifest.assets, p.assets), false)
  }

  lemma PickIsLoaded(st: Store, before: Files, id: string, p: Payload, s: Section)
    requires FilesValid(p) && AllPresent(p.manifest.Refs(s), p.Files(s))
    requires st.files == WrittenAll(before, id, p)
    ensures LoadFiles(st, id, p.manifest.Refs(s)) == Some(Pick(p.manifest.Refs(s), p.Files(s)))
  {
    var refs, files := p.manifest.Refs(s), p.Files(s);
    forall i | 0 <= i < |refs|
      ensures (id, refs[i].path) in st.files && st.files[(id, refs[i].path)] == ContentFor(files, refs[i].path)
    {
      assert refs[i] in refs;
      var f :| f in files && f.path == refs[i].path && f.content == ContentFor(files, refs[i].path);
      WrittenAllAt(before, id, p, s, f);
    }
    LoadedFiles(st, id, refs, Pick(refs, files));
  }

  lemma LoadedFiles(st: Store, id: string, refs: seq<Ref>, files: seq<File>)
    requires |files| == |refs|
    requires forall i :: 0 <= i < |refs| ==> (id, refs[i].path) in st.files
    requires forall i :: 0 <= i < |refs| ==> files[i] == File(refs[i].path, st.files[(id, refs[i].path)])
    ensures LoadFiles(st, id, refs) == Some(files)
  {
    forall r | r in refs ensures (id, r.path) in st.files {
      var i :| 0 <= i < |refs| && refs[i] == r;
    }
    assert LoadFiles(st, id, refs).value == files;
  }

  // Loading a written bundle gives the payload in normal form.
  lemma LoadWritten(st: Store, before: Files, p: Payload, compiled: set<string>)
    requires ValidPayload(p, compiled)
    requires st.files == WrittenAll(before, p.manifest.packageId, p)
    requires p.manifest.packageId in st.manifests && st.manifests[p.manifest.packageId] == p.manifest
    ensures Load(st, p.manifest.packageId) == Ok(Some(Normal(p)))
  {
    var id := p.manifest.packageId;
    PickIsLoaded(st, before, id, p, Skills);
    PickIsLoaded(st, before, id, p, Workflows);
    PickIsLoaded(st, before, id, p, Policies);
    PickIsLoaded(st, before, id, p, Assets);
  }

  // ----- payloads that were loaded

  ghost predicate Aligned(refs: seq<Ref>, files: seq<File>) {
    |files| == |refs| && forall i :: 0 <= i < |refs| ==> files[i].path == refs[i].path
  }

  ghost predicate IsLoaded(p: Payload) {
    && Aligned(p.manifest.skills, p.skills) && Aligned(p.manifest.workflows, p.workflows)
    && Aligned(p.manifest.policies, p.policies) && Aligned(p.manifest.assets, p.assets)
    && !p.enableOnInstall
  }

  lemma LoadIsLoaded(st: Store, id: string)
    requires Load(st, id).Ok? && Load(st, id).value.Some?
    ensures IsLoaded(Load(st, id).value.value) && Load(st, id).value.value.manifest == st.manifests[id]
  {}

  lemma {:induction false} ContentForIs(files: seq<File>, i: nat)
    requires DistinctPaths(files) && i < |files| && Names(files, files[i].path)
    ensures ContentFor(files, files[i].path) == files[i].content
  {
    if i > 0 {
      assert files[0].path != files[i].path;
      assert files[1..][i - 1] == files[i];
      ContentForIs(files[1..], i - 1);
    }
  }

  lemma PickOfLoaded(refs: seq<Ref>, files: seq<File>)
    requires Aligned(refs, files) && DistinctPaths(files) && AllPresent(refs, files)
    ensures Pick(refs, files) == files
  {
    forall i | 0 <= i < |refs| ensures Pick(refs, files)[i] == files[i] {
      assert files[i] in files;
      ContentForIs(files, i);
    }
  }

  // Writing back what was loaded changes nothing.
  lemma NormalOfLoaded(p: Payload, compiled: set<string>)
    requires ValidPayload(p, compiled) && IsLoaded(p)
    ensures Normal(p) == p
  {
    PickOfLoaded(p.manifest.skills, p.skills);
    PickOfLoaded(p.manifest.workflows, p.workflows);
    PickOfLoaded(p.manifest.policies, p.policies);
    PickOfLoaded(p.manifest.assets, p.assets);
  }

  // ----- overlays and conflicts

  // The overlays a package brings: those of the policy files its manifest names.
  function PackageOverlays(st: Store, id: string): set<Overlay> {
    if id !in st.manifests then {} else
    set r, o | r in st.manifests[id].policies && (id, r.path) in st.files
               && st.files[(id, r.path)].PolicyJson? && o in st.files[(id, r.path)].doc.overlays :: o
  }

  // A workflow of one has the id of a workflow of the other.
  ghost predicate SharesWorkflow(m: Manifest, n: Manifest) {
    exists r, w :: r in m.workflows && w in n.workflows && r.id == w.id
  }

  predicate Enabled(entries: seq<Entry>, id: string) {
    Find(entries, id).Some? && Find(entries, id).value.enabled
  }

  // Enabled, with a bundle to load.
  predicate Live(st: Store, id: string) { id in st.manifests && Enabled(st.registry, id) }

  ghost predicate Compatible(m: Manifest, os: set<Overlay>, n: Manifest, ps: set<Overlay>) {
    ChannelsOverlap(m.channels, n.channels) ==> !SharesWorkflow(m, n) && CrossConsistent(os, ps)
  }

  // All the files of a package are there and its policies parse.
  ghost predicate Readable(st: Store, id: string)
    requires id in st.manifests
  {
    && st.manifests[id].packageId == id
    && Load(st, id).Ok?
    && ParsePolicies(Load(st, id).value.value.policies).Some?
  }

  ghost predicate RecordOk(id: string, r: Record) {
    && r.packageId == id
    && (r.previousEntry.Some? ==> r.previousEntry.value.packageId == id)
    && (r.previousBundle.Some? ==> r.previousBundle.value.manifest.packageId == id && IsLoaded(r.previousBundle.value))
  }

  ghost predicate PairOk(st: Store, p: string, q: string)
    requires p in st.manifests && q in st.manifests
  {
    Compatible(st.manifests[p], PackageOverlays(st, p), st.manifests[q], PackageOverlays(st, q))
  }

  // The invariant of the store.
  ghost predicate Good(st: Store) {
    && Sorted(st.registry) && |st.registry| <= MAX_PACKAGES
    && (forall id :: id in st.manifests ==> Readable(st, id))
    && (forall id :: id in st.rollbacks ==> RecordOk(id, st.rollbacks[id]))
    && (forall id :: Live(st, id) ==> Consistent(PackageOverlays(st, id)))
    && (forall p, q :: Live(st, p) && Live(st, q) && p != q ==> PairOk(st, p, q))
  }

  lemma EmptyIsGood()
    ensures Good(EMPTY)
  {}

  // Parsing the policies of a readable package gives its overlays.
  lemma ParsedOverlays(st: Store, id: string)
    requires id in st.manifests && Readable(st, id)
    ensures Overlays(ParsePolicies(Load(st, id).value.value.policies).value) == PackageOverlays(st, id)
  {
    var m, files := st.manifests[id], Load(st, id).value.value.policies;
    var docs := ParsePolicies(files).value;
    forall i | 0 <= i < |files|
      ensures files[i].content == st.files[(id, m.policies[i].path)] && docs[i] == files[i].content.doc
    {
      assert files[i] in files;
      assert m.policies[i] in m.policies;
    }
    forall o | o in Overlays(docs) ensures o in PackageOverlays(st, id) {
      var d :| d in docs && o in d.overlays;
      var i :| 0 <= i < |docs| && docs[i] == d;
      assert files[i] in files && m.policies[i] in m.policies;
    }
    forall o | o in PackageOverlays(st, id) ensures o in Overlays(docs) {
      var r :| r in m.policies && (id, r.path) in st.files && st.files[(id, r.path)].PolicyJson?
               && o in st.files[(id, r.path)].doc.overlays;
      var i :| 0 <= i < |m.policies| && m.policies[i] == r;
      assert docs[i] in docs;
    }
  }

  // ----- one package changes

  // What is stored of package q is the same.
  ghost predicate SamePackage(s: Store, t: Store, q: string) {
    && (q in s.manifests <==> q in t.manifests)
    && (q in s.manifests ==> s.manifests[q] == t.manifests[q])
    && forall path :: ((q, path) in s.files <==> (q, path) in t.files)
                      && ((q, path) in s.files ==> s.files[(q, path)] == t.files[(q, path)])
  }

  // Nothing but package id differs: not files, not entries, not rollback records.
  ghost predicate OthersSame(s: Store, t: Store, id: string) {
    forall q :: q != id ==>
      && SamePackage(s, t, q) && Find(s.registry, q) == Find(t.registry, q)
      && (q in s.rollbacks <==> q in t.rollbacks)
      && (q in s.rollbacks ==> s.rollbacks[q] == t.rollbacks[q])
  }

  lemma SameLoad(s: Store, t: Store, q: string)
    requires SamePackage(s, t, q)
    ensures Load(s, q) == Load(t, q) && PackageOverlays(s, q) == PackageOverlays(t, q)
    ensures q in s.manifests ==> (Readable(s, q) <==> Readable(t, q))
  {
    if q in s.manifests {
      var m := s.manifests[q];
      SameFiles(s, t, q, m.skills);
      SameFiles(s, t, q, m.workflows);
      SameFiles(s, t, q, m.policies);
      SameFiles(s, t, q, m.assets);
    }
  }

  lemma SameFiles(s: Store, t: Store, q: string, refs: seq<Ref>)
    requires SamePackage(s, t, q)
    ensures LoadFiles(s, q, refs) == LoadFiles(t, q, refs)
  {
    assert forall r :: r in refs ==> ((q, r.path) in s.files <==> (q, r.path) in t.files);
    if LoadFiles(s, q, refs).Some? {
      forall i | 0 <= i < |refs| ensures LoadFiles(s, q, refs).value[i] == LoadFiles(t, q, refs).value[i] {
        assert refs[i] in refs;
      }
      assert LoadFiles(s, q, refs).value == LoadFiles(t, q, refs).value;
    }
  }

  // What must be checked of package id for the store to stay in order.
  ghost predicate NewcomerOk(s: Store, t: Store, id: string) {
    && (id in t.manifests ==> Readable(t, id))
    && (id in t.rollbacks ==> RecordOk(id, t.rollbacks[id]))
    && (Live(t, id) ==>
          && Consistent(PackageOverlays(t, id))
          && forall q :: q != id && Live(s, q) ==>
               Compatible(t.manifests[id], PackageOverlays(t, id), s.manifests[q], PackageOverlays(s, q)))
  }

  lemma CompatibleSymmetric(m: Manifest, os: set<Overlay>, n: Manifest, ps: set<Overlay>)
    ensures Compatible(m, os, n, ps) <==> Compatible(n, ps, m, os)
  {
    assert ChannelsOverlap(m.channels, n.channels) <==> ChannelsOverlap(n.channels, m.channels);
    assert SharesWorkflow(m, n) <==> SharesWorkflow(n, m);
    assert CrossConsistent(os, ps) <==> CrossConsistent(ps, os);
  }

  lemma StaysGood(s: Store, t: Store, id: string)
    requires Good(s) && OthersSame(s, t, id)
    requires Sorted(t.registry) && |t.registry| <= MAX_PACKAGES
    requires NewcomerOk(s, t, id)
    ensures Good(t)
  {
    hide Load, PackageOverlays, Readable, Consistent, Compatible, RecordOk;
    forall q | q != id
      ensures Load(s, q) == Load(t, q) && PackageOverlays(s, q) == PackageOverlays(t, q)
      ensures q in s.manifests ==> (Readable(s, q) <==> Readable(t, q))
    {
      SameLoad(s, t, q);
    }
    forall p, q | Live(t, p) && Live(t, q) && p != q ensures PairOk(t, p, q) {
      if p != id && q != id {
        assert Live(s, p) && Live(s, q);
        assert PairOk(s, p, q);
      } else if p == id {
        assert Live(s, q);
      } else {
        assert Live(s, p);
        CompatibleSymmetric(t.manifests[id], PackageOverlays(t, id), s.manifests[p], PackageOverlays(s, p));
      }
    }
  }
}
