// Runs of operations, and the tool policies built between them.
module CapRuns {
  import opened Wrappers
  import opened CapPolicy
  import opened CapModel
  import opened CapRegistry
  import opened CapStore
  import opened CapLifecycle
  import opened CapOperations

  // ----- what is active on a channel

  datatype Bundle = Bundle(packageId: string, documents: seq<Document>)

  predicate IsActive(st: Store, e: Entry, caps: seq<string>, channel: string) {
    && e.enabled && e.packageId in st.manifests
    && SupportsChannel(st.manifests[e.packageId], channel)
    && HasCapabilities(st.manifests[e.packageId], caps)
  }

  function ActiveIds(st: Store, entries: seq<Entry>, caps: seq<string>, channel: string): set<string> {
    set e | e in entries && IsActive(st, e, caps, channel) :: e.packageId
  }

  lemma ActiveStep(st: Store, entries: seq<Entry>, caps: seq<string>, channel: string, i: nat)
    requires i < |entries|
    ensures ActiveIds(st, entries[..i + 1], caps, channel) ==
            ActiveIds(st, entries[..i], caps, channel)
            + if IsActive(st, entries[i], caps, channel) then {entries[i].packageId} else {}
  {
    assert entries[..i + 1] == entries[..i] + [entries[i]];
  }

  // The same in the order of the registry.
  function ActiveList(st: Store, entries: seq<Entry>, caps: seq<string>, channel: string): seq<string> {
    if entries == [] then []
    else
      var e := entries[|entries| - 1];
      ActiveList(st, entries[..|entries| - 1], caps, channel)
      + if IsActive(st, e, caps, channel) then [e.packageId] else []
  }

  lemma ActiveListStep(st: Store, entries: seq<Entry>, caps: seq<string>, channel: string, i: nat)
    requires i < |entries|
    ensures ActiveList(st, entries[..i + 1], caps, channel) ==
            ActiveList(st, entries[..i], caps, channel)
            + if IsActive(st, entries[i], caps, channel) then [entries[i].packageId] else []
  {
    assert entries[..i + 1][..i] == entries[..i];
  }

  function Ids(bundles: seq<Bundle>): seq<string> {
    seq(|bundles|, i requires 0 <= i < |bundles| => bundles[i].packageId)
  }

  // The bundles stand for the packages ids, with all their overlays.
  ghost predicate Carries(bundles: seq<Bundle>, st: Store, ids: set<string>) {
    && (set b | b in bundles :: b.packageId) == ids
    && forall b :: b in bundles ==> Overlays(b.documents) == PackageOverlays(st, b.packageId)
  }

  method LoadActive(fs: StateFs, caps: seq<string>, channel: string) returns (bundles: seq<Bundle>)
    requires Good(fs.S())
    ensures Carries(bundles, fs.S(), ActiveIds(fs.S(), fs.registry, caps, channel))
    ensures Ids(bundles) == ActiveList(fs.S(), fs.registry, caps, channel)
  {
    hide Load, PackageOverlays, Readable, ParsePolicies, Sorted, Overlays;
    bundles := [];
    ghost var st := fs.S();
    for i := 0 to |fs.registry|
      invariant Carries(bundles, st, ActiveIds(st, fs.registry[..i], caps, channel))
      invariant Ids(bundles) == ActiveList(st, fs.registry[..i], caps, channel)
    {
      var e := fs.registry[i];
      ActiveListStep(st, fs.registry, caps, channel, i);
      ActiveStep(st, fs.registry, caps, channel, i);
      if e.enabled && e.packageId in fs.manifests
         && SupportsChannel(fs.manifests[e.packageId], channel)
         && HasCapabilities(fs.manifests[e.packageId], caps)
      {
        var docs := fs.PoliciesOf(e.packageId);
        assert Ids(bundles + [Bundle(e.packageId, docs)]) == Ids(bundles) + [e.packageId];
        bundles := bundles + [Bundle(e.packageId, docs)];
      }
    }
    assert fs.registry[..|fs.registry|] == fs.registry;
  }

  // The packages among ids that have an overlay for the tool, in the order of ids.
  ghost function ListSources(st: Store, ids: seq<string>, tool: string): seq<string> {
    if ids == [] then []
    else
      var last := ids[|ids| - 1];
      AddSource(ListSources(st, ids[..|ids| - 1], tool), last, Touches(PackageOverlays(st, last), tool))
  }

  lemma {:induction false} SourcesExactly(st: Store, ids: seq<string>, tool: string)
    ensures var sources := ListSources(st, ids, tool);
      && (forall id :: id in sources <==> id in ids && exists o :: o in PackageOverlays(st, id) && o.tool == tool)
      && forall i, j :: 0 <= i < j < |sources| ==> sources[i] != sources[j]
  {
    hide PackageOverlays;
    if ids != [] {
      var front, last := ids[..|ids| - 1], ids[|ids| - 1];
      SourcesExactly(st, front, tool);
      assert forall id :: id in ids <==> id in front || id == last;
    }
  }

  // The policy set of a channel can be built in every good store. It lists as sources of a
  // tool the active packages that have an overlay for it, in the order of the registry.
  method BuildToolPolicySet(fs: StateFs, caps: seq<string>, channel: string) returns (r: Result<PolicySet, Error>)
    requires Good(fs.S())
    ensures r.Ok? && Represents(r.value, OverlaysOf(fs.S(), ActiveIds(fs.S(), fs.registry, caps, channel)))
    ensures forall t ::
      Sources(r.value, t) == ListSources(fs.S(), ActiveList(fs.S(), fs.registry, caps, channel), t)
  {
    hide Good, PackageOverlays, Represents, Consistent, Overlays, Sources, AddSource, Touches;
    var bundles := LoadActive(fs, caps, channel);
    ghost var st, ids := fs.S(), ActiveIds(fs.S(), fs.registry, caps, channel);
    ActiveIsConsistent(st, caps, channel);
    var merged: PolicySet := map[];
    ghost var met: set<string> := {};
    NothingRepresents(st);
    NoSources();
    for i := 0 to |bundles|
      invariant met == (set b | b in bundles[..i] :: b.packageId) && met <= ids
      invariant Represents(merged, OverlaysOf(st, met))
      invariant forall t :: Sources(merged, t) == ListSources(st, Ids(bundles[..i]), t)
    {
      var b := bundles[i];
      assert Ids(bundles[..i + 1])[..i] == Ids(bundles[..i]) && Ids(bundles[..i + 1])[i] == b.packageId;
      assert b in bundles && bundles[..i + 1] == bundles[..i] + [b];
      var next := MergeDocuments(b.packageId, b.documents, merged, OverlaysOf(st, met));
      OverlaysOfUnion(st, met, b.packageId);
      met := met + {b.packageId};
      OverlaysOfFewer(st, met, ids);
      ConsistentSubset(OverlaysOf(st, ids), OverlaysOf(st, met));
      merged := next.value;
    }
    assert bundles[..|bundles|] == bundles;
    return Ok(merged);
  }

  lemma NoSources()
    ensures forall t :: Sources(map[], t) == []
  {}

  lemma OverlaysOfFewer(st: Store, ids: set<string>, more: set<string>)
    requires ids <= more
    ensures OverlaysOf(st, ids) <= OverlaysOf(st, more)
  {}

  lemma ActiveIsLive(st: Store, caps: seq<string>, channel: string, id: string)
    requires Good(st) && id in ActiveIds(st, st.registry, caps, channel)
    ensures Live(st, id) && SupportsChannel(st.manifests[id], channel)
  {
    var e :| e in st.registry && IsActive(st, e, caps, channel) && e.packageId == id;
    FindSorted(st.registry, e);
  }

  // Checks made pair by pair at admission add up: all that is active on a
  // channel is consistent together.
  lemma ActiveIsConsistent(st: Store, caps: seq<string>, channel: string)
    requires Good(st)
    ensures Consistent(OverlaysOf(st, ActiveIds(st, st.registry, caps, channel)))
  {
    hide PackageOverlays, Readable, RecordOk, Sorted;
    var ids := ActiveIds(st, st.registry, caps, channel);
    var all := OverlaysOf(st, ids);
    forall o, q, a | o in all && q in all ensures !Opposed(o, q, a) {
      var x :| x in ids && o in PackageOverlays(st, x);
      var y :| y in ids && q in PackageOverlays(st, y);
      ActiveIsLive(st, caps, channel, x);
      ActiveIsLive(st, caps, channel, y);
      if x != y {
        SharedChannelMeansOverlap(st.manifests[x], st.manifests[y], channel);
        assert PairOk(st, x, y);
      }
    }
  }

  // Two enabled packages that can meet on a channel have no workflow id in common.
  lemma LiveWorkflowsAreDisjoint(st: Store, e: Entry, f: Entry, channel: string, r: Ref, w: Ref)
    requires Good(st) && e in st.registry && f in st.registry && e.enabled && f.enabled
    requires e.packageId != f.packageId && e.packageId in st.manifests && f.packageId in st.manifests
    requires var c := st.manifests[e.packageId].channels; c == [] || "*" in c || channel in c
    requires var c := st.manifests[f.packageId].channels; c == [] || "*" in c || channel in c
    requires r in st.manifests[e.packageId].workflows && w in st.manifests[f.packageId].workflows
    ensures r.id != w.id
  {
    var p, q := e.packageId, f.packageId;
    FindSorted(st.registry, e);
    FindSorted(st.registry, f);
    SharedChannelMeansOverlap(st.manifests[p], st.manifests[q], channel);
    assert PairOk(st, p, q);
  }

  // ----- runs

  datatype Command =
    | DoInstall(payload: Payload)
    | DoSetEnabled(packageId: string, enabled: bool)
    | DoUninstall(packageId: string)
    | DoRollback(packageId: string)
  {
    // The package a command is about, if its argument names one.
    function Target(): Option<string> {
      if DoInstall? then Some(payload.manifest.packageId) else Normalize(packageId, MAX_ID)
    }
  }

  // A command, and what the device offers when it is given.
  datatype Step = Step(command: Command, caps: seq<string>, compiled: set<string>, now: nat)

  function OperationOf(c: Command): Operation {
    match c
    case DoInstall(_) => Install
    case DoSetEnabled(_, enabled) => if enabled then Enable else Disable
    case DoUninstall(_) => Uninstall
    case DoRollback(_) => Rollback
  }

  // What there was before is on record, and only the package the command is about differs.
  ghost predicate Changed(s: Store, t: Store, step: Step) {
    && step.command.Target().Some?
    && OthersSame(s, t, step.command.Target().value)
    && Recorded(s, t, step.command.Target().value, OperationOf(step.command), step.now)
  }

  // An enable or disable that finds the flag as it is to be.
  predicate FlagAlreadySet(s: Store, step: Step) {
    && step.command.DoSetEnabled? && step.command.Target().Some?
    && var e := Find(s.registry, step.command.Target().value);
       e.Some? && e.value.enabled == step.command.enabled
  }

  // What is there now is what the record at hand holds.
  ghost predicate OnRecord(s: Store, id: string) {
    && id in s.rollbacks && Load(s, id) == Ok(s.rollbacks[id].previousBundle)
    && SameButRollback(s.rollbacks[id].previousEntry, Find(s.registry, id))
  }

  // u has of package id what s had, up to the rollback fields.
  ghost predicate RestoredTo(s: Store, u: Store, id: string) {
    Load(u, id) == Load(s, id) && SameButRollback(Find(u.registry, id), Find(s.registry, id))
  }

  // How an operation that failed may have left the store.
  ghost predicate FailedAs(s: Store, t: Store, step: Step, f: Failure) {
    || t == s
    || (&& Changed(s, t, step) && t.registry == s.registry
        && var id := step.command.Target().value;
           if f == TooManyPackages then
             step.command.DoInstall? || step.command.DoRollback?
           else step.command.DoRollback? && Load(t, id) == Ok(None))
  }

  method Perform(fs: StateFs, step: Step) returns (r: Result<Outcome, Failure>)
    requires Good(fs.S())
    modifies fs
    ensures Good(fs.S())
    ensures match step.command.Target()
      case None => fs.S() == old(fs.S())
      case Some(id) => OthersSame(old(fs.S()), fs.S(), id)
    ensures fs.S() == old(fs.S()) || Changed(old(fs.S()), fs.S(), step)
    ensures r.Ok? ==> r.value.operation == OperationOf(step.command)
    ensures r.Ok? && !FlagAlreadySet(old(fs.S()), step) ==> Changed(old(fs.S()), fs.S(), step)
    ensures r.Ok? && FlagAlreadySet(old(fs.S()), step) ==> fs.S() == old(fs.S())
    ensures r.Err? ==> FailedAs(old(fs.S()), fs.S(), step, r.error)
  {
    hide Good, Load, SamePackage, Admissible, MayInstall, MaySwitch, MayRestore, Normalize, Normal;
    GoodParts(fs.S());
    match step.command
    case DoInstall(payload) => r := fs.Install(step.caps, step.compiled, payload, step.now);
    case DoSetEnabled(id, enabled) => r := fs.SetEnabled(step.caps, id, enabled, step.now);
    case DoUninstall(id) => r := fs.UninstallPackage(id, step.now);
    case DoRollback(id) => r := fs.RollbackPackage(step.caps, step.compiled, id, step.now);
  }

  // Whatever was done to a store, and however it ended, the policy set of every
  // channel can be built afterwards.
  method RunThenBuild(steps: seq<Step>, caps: seq<string>, channel: string)
      returns (fs: StateFs, r: Result<PolicySet, Error>)
    ensures fresh(fs) && Good(fs.S())
    ensures r.Ok? && Represents(r.value, OverlaysOf(fs.S(), ActiveIds(fs.S(), fs.registry, caps, channel)))
  {
    hide Good, Represents, OthersSame, Changed;
    fs := new StateFs();
    for i := 0 to |steps|
      invariant fresh(fs) && Good(fs.S())
    {
      var _ := Perform(fs, steps[i]);
    }
    r := BuildToolPolicySet(fs, caps, channel);
  }

  // Rolling back restores what the record holds, so also what is there if that is on record.
  lemma RolledBackToRecord(s: Store, u: Store, id: string, later: nat)
    requires RolledBack(s, id, later, u)
    ensures RestoredTo(s, u, id) <==> OnRecord(s, id)
  {
    hide Load, OthersSame;
  }

  // An operation and two rollbacks, all successful. The first rollback restores what was
  // there before the operation if and only if the operation did not find its flag set, or
  // what was there was on record; the second restores what was there after it.
  method ChangeUndoRedo(fs: StateFs, step: Step, caps: seq<string>, compiled: set<string>, packageId: string,
                        later: nat, latest: nat)
      returns (done: Result<Outcome, Failure>, undone: Result<Outcome, Failure>, redone: Result<Outcome, Failure>,
               ghost t: Store, ghost u: Store)
    requires Good(fs.S()) && Normalize(packageId, MAX_ID).Some?
    requires step.command.Target() == Normalize(packageId, MAX_ID)
    modifies fs
    ensures Good(fs.S()) && Good(t) && Good(u)
    ensures var id := Normalize(packageId, MAX_ID).value;
      && OthersSame(old(fs.S()), t, id) && OthersSame(t, u, id) && OthersSame(u, fs.S(), id)
      && (done.Ok? && undone.Ok? ==>
           (RestoredTo(old(fs.S()), u, id) <==>
             !FlagAlreadySet(old(fs.S()), step) || OnRecord(old(fs.S()), id)))
      && (undone.Ok? && redone.Ok? ==> RestoredTo(t, fs.S(), id))
  {
    hide Good, Load, SamePackage, MayRestore, Normalize, OthersSame, Recorded, SameButRollback;
    hide FlagAlreadySet, OnRecord;
    var id := Normalize(packageId, MAX_ID).value;
    ghost var s := fs.S();
    GoodParts(s);
    done := Perform(fs, step);
    t := fs.S();
    GoodParts(t);
    undone := fs.RollbackPackage(caps, compiled, packageId, later);
    u := fs.S();
    GoodParts(u);
    redone := fs.RollbackPackage(caps, compiled, packageId, latest);
    if done.Ok? && undone.Ok? {
      if FlagAlreadySet(s, step) {
        RolledBackToRecord(s, u, id, later);
      } else {
        RollbackUndoes(s, t, u, id, OperationOf(step.command), step.now, later);
      }
    }
    if undone.Ok? && redone.Ok? { SecondRollbackRedoes(t, u, fs.S(), id, later, latest); }
  }

  // ----- when a record can be restored

  lemma PickKeepsPaths(refs: seq<Ref>, files: seq<File>)
    requires AllPresent(refs, files)
    ensures DistinctPaths(Pick(refs, files)) <==> DistinctRefPaths(refs)
  {
    var picked := Pick(refs, files);
    if DistinctPaths(picked) {
      forall i, j | 0 <= i < j < |refs| ensures refs[i].path != refs[j].path {
        assert picked[i].path != picked[j].path;
      }
    }
  }

  // The files picked for a section are valid unless the section names a path twice.
  lemma PickIsValid(refs: seq<Ref>, files: seq<File>, s: Section)
    requires AllPresent(refs, files) && ValidFiles(files, s)
    ensures ValidFiles(Pick(refs, files), s) <==> DistinctRefPaths(refs)
  {
    PickKeepsPaths(refs, files);
    PickedFilesAreValid(refs, files, s);
    hide DistinctRefPaths, DistinctPaths, Pick, SafePath, ValidContent;
  }

  lemma PickedFilesAreValid(refs: seq<Ref>, files: seq<File>, s: Section)
    requires AllPresent(refs, files) && ValidFiles(files, s)
    ensures forall f :: f in Pick(refs, files) ==> SafePath(f.path, Prefix(s)) && ValidContent(f.content, s)
  {
    hide SafePath, ValidContent, DistinctPaths;
    var picked := Pick(refs, files);
    forall f | f in picked ensures SafePath(f.path, Prefix(s)) && ValidContent(f.content, s) {
      var i :| 0 <= i < |refs| && picked[i] == f;
      assert refs[i] in refs;
      var g :| g in files && g.path == refs[i].path && g.content == f.content;
    }
  }

  lemma PickHasAll(refs: seq<Ref>, files: seq<File>)
    requires AllPresent(refs, files)
    ensures AllPresent(refs, Pick(refs, files))
  {
    var picked := Pick(refs, files);
    forall r | r in refs ensures exists f :: f in picked && f.path == r.path {
      var i :| 0 <= i < |refs| && refs[i] == r;
      assert picked[i] in picked;
    }
  }

  lemma PickedPolicyIsValid(refs: seq<Ref>, files: seq<File>, r: Ref)
    requires AllPresent(refs, files) && ValidPolicy(r, files)
    ensures ValidPolicy(r, Pick(refs, files))
  {
    forall f | f in Pick(refs, files) && f.path == r.path
      ensures f.content.PolicyJson? && f.content.doc.policyId == r.id && ValidDocument(f.content.doc)
    {
      var i :| 0 <= i < |refs| && Pick(refs, files)[i] == f;
      assert refs[i] in refs;
      var g :| g in files && g.path == r.path && g.content == f.content;
    }
  }

  lemma AssetPathsDiffer(m: Manifest, compiled: set<string>)
    requires ValidManifest(m, compiled)
    ensures DistinctRefPaths(m.assets)
  {}

  // The bundle of an installed package passes validation again exactly when no
  // section of its manifest names one path twice.
  lemma ReloadedIsValid(p: Payload, compiled: set<string>)
    requires ValidPayload(p, compiled)
    ensures ValidPayload(Normal(p), compiled) <==>
            DistinctRefPaths(p.manifest.skills) && DistinctRefPaths(p.manifest.workflows)
            && DistinctRefPaths(p.manifest.policies)
  {
    var m := p.manifest;
    hide ValidManifest, ValidPolicy, DistinctRefPaths, ValidFiles, Pick;
    AssetPathsDiffer(m, compiled);
    PickIsValid(m.skills, p.skills, Skills);
    PickHasAll(m.skills, p.skills);
    PickIsValid(m.workflows, p.workflows, Workflows);
    PickHasAll(m.workflows, p.workflows);
    PickIsValid(m.policies, p.policies, Policies);
    PickHasAll(m.policies, p.policies);
    PickIsValid(m.assets, p.assets, Assets);
    PickHasAll(m.assets, p.assets);
    forall r | r in m.policies ensures ValidPolicy(r, Normal(p).policies) {
      PickedPolicyIsValid(m.policies, p.policies, r);
    }
  }

  // ----- ids with white space around them

  lemma NoSpaces(t: string)
    requires forall c :: c in t ==> IdChar(c)
    ensures Trim(t) == t
  {
    if t != "" { assert t[0] in t && t[|t| - 1] in t; }
  }

  // An id can be named to enable, disable, uninstall or roll back exactly when
  // it has no white space around it. An install takes it either way.
  lemma NamedExactly(id: string)
    requires Normalize(id, MAX_ID).Some?
    ensures (exists argument :: Normalize(argument, MAX_ID) == Some(id)) <==> Trim(id) == id
  {
    if Trim(id) == id {
      assert Normalize(id, MAX_ID) == Some(id);
    }
    if argument :| Normalize(argument, MAX_ID) == Some(id) {
      NoSpaces(id);
    }
  }
}
