// The operations on the store, in the order in which they read and write it.
module CapOperations {
  import opened Wrappers
  import opened CapPolicy
  import opened CapModel
  import opened CapRegistry
  import opened CapStore
  import opened CapLifecycle

  class StateFs {
    var registry: seq<Entry>
    var manifests: map<string, Manifest>
    var files: map<(string, string), Content>
    var rollbacks: map<string, Record>

    ghost function S(): Store
      reads this
    {
      Store(registry, manifests, files, rollbacks)
    }

    constructor ()
      ensures S() == EMPTY && Good(S())
    {
      registry, manifests, files, rollbacks := [], map[], map[], map[];
      new;
      EmptyIsGood();
    }

    // ----- pieces

    method WriteFiles(id: string, list: seq<File>)
      modifies this`files
      ensures files == Written(old(files), id, list)
    {
      for i := 0 to |list|
        invariant files == Written(old(files), id, list[..i])
      {
        assert list[..i + 1][..i] == list[..i];
        files := files[(id, list[i].path) := list[i].content];
      }
      assert list[..|list|] == list;
    }

    method WriteBundle(p: Payload)
      modifies this`manifests, this`files
      ensures S() == WithBundle(old(S()), p)
    {
      var id := p.manifest.packageId;
      manifests := manifests[id := p.manifest];
      WriteFiles(id, p.skills);
      WriteFiles(id, p.workflows);
      WriteFiles(id, p.policies);
      WriteFiles(id, p.assets);
    }

    method ClearPackage(id: string)
      modifies this`manifests, this`files
      ensures S() == Cleared(old(S()), id)
    {
      if id !in manifests { return; }
      files := map k | k in files && k.0 != id :: files[k];
      manifests := manifests - {id};
    }

    // Refused above the package limit.
    method WriteRegistry(entries: seq<Entry>) returns (ok: bool)
      modifies this`registry
      ensures ok <==> |entries| <= MAX_PACKAGES
      ensures registry == if ok then entries else old(registry)
    {
      if |entries| > MAX_PACKAGES { return false; }
      registry := entries;
      return true;
    }

    method ReadBundle(id: string) returns (r: Result<Option<Payload>, Failure>)
      ensures r == Load(S(), id)
    {
      r := Load(Store(registry, manifests, files, rollbacks), id);
    }

    method ReadBundleWithoutAssets(id: string) returns (r: Result<Option<Payload>, Failure>)
      ensures r == LoadWithoutAssets(S(), id)
    {
      r := LoadWithoutAssets(Store(registry, manifests, files, rollbacks), id);
    }

    // The enabled packages are gone through one by one; the first that clashes decides.
    method ValidateConflicts(entries: seq<Entry>, m: Manifest, docs: seq<Document>, exclude: string)
        returns (r: Result<(), Failure>)
      requires forall id :: id in manifests ==> Readable(S(), id)
      ensures r.Ok? <==> Admissible(S(), entries, m, Overlays(docs), exclude)
      ensures r.Err? ==> r.error in {WorkflowConflict, PolicyConflict}
      ensures (exists e, v, w :: WorkflowClash(S(), entries, m, exclude, e, v, w)) ==> r.Err?
      ensures r == Err(WorkflowConflict) ==> exists e, v, w :: WorkflowClash(S(), entries, m, exclude, e, v, w)
    {
      WorkflowTestExactly(S(), entries, m, exclude);
      hide WorkflowClash, SharesWorkflow, Represents, Consistent, Readable, PackageOverlays, Load, ParsePolicies;
      ghost var st, os, rivals := S(), Overlays(docs), Rivals(S(), entries, m, exclude);
      var candidates := set w | w in m.workflows :: w.id;
      var active: PolicySet := map[];
      ghost var met: set<string> := {};
      NothingRepresents(st);
      for i := 0 to |entries|
        invariant met == Rivals(st, entries[..i], m, exclude) && met <= rivals
        invariant NoWorkflowClash(st, m, met)
        invariant Represents(active, OverlaysOf(st, met))
      {
        var e := entries[i];
        RivalsStep(st, entries, m, exclude, i);
        RivalsOfPrefix(st, entries, m, exclude, i + 1);
        if e.enabled && e.packageId != exclude && e.packageId in manifests
           && ChannelsOverlap(m.channels, manifests[e.packageId].channels)
        {
          var id := e.packageId;
          assert id in rivals;
          var taken := AnyIdIn(manifests[id].workflows, candidates);
          SharedWorkflow(m, manifests[id], candidates);
          if taken { return Err(WorkflowConflict); }
          var theirs := PoliciesOf(id);
          OverlaysOfUnion(st, met, id);
          var next := MergeDocuments(id, theirs, active, OverlaysOf(st, met));
          met := met + {id};
          if next.Err? {
            RefusedEarly(st, entries, m, exclude, i + 1, os);
            return Err(PolicyConflict);
          }
          active := next.value;
        }
      }
      assert entries[..|entries|] == entries;
      var all := MergeDocuments(m.packageId, docs, active, OverlaysOf(st, met));
      return if all.Ok? then Ok(()) else Err(PolicyConflict);
    }

    // The policy documents of a readable package.
    method PoliciesOf(id: string) returns (docs: seq<Document>)
      requires id in manifests && Readable(S(), id)
      ensures Overlays(docs) == PackageOverlays(S(), id)
    {
      ParsedOverlays(S(), id);
      AssetsApart(S(), id);
      var bundle := ReadBundleWithoutAssets(id);
      docs := ParsePolicies(bundle.value.value.policies).value;
    }

    method WriteRollback(id: string, op: Operation, now: nat, entry: Option<Entry>, bundle: Option<Payload>)
      modifies this`rollbacks
      ensures rollbacks == old(rollbacks)[id := Record(id, op, now, entry, bundle)]
    {
      rollbacks := rollbacks[id := Record(id, op, now, entry, bundle)];
    }

    // ----- operations

    // Capabilities and conflicts of a payload that is to be enabled.
    method ValidateEnable(entries: seq<Entry>, p: Payload, docs: seq<Document>, caps: seq<string>)
        returns (r: Result<(), Failure>)
      requires forall id :: id in manifests ==> Readable(S(), id)
      requires ParsePolicies(p.policies) == Some(docs)
      ensures r.Ok? <==> MayEnable(S(), entries, p, caps)
      ensures r == Err(MissingCapability) <==> exists c :: c in p.manifest.required && c !in caps
      ensures r.Err? ==> r.error in {MissingCapability, WorkflowConflict, PolicyConflict}
    {
      if !HasCapabilities(p.manifest, caps) { return Err(MissingCapability); }
      r := ValidateConflicts(entries, p.manifest, docs, p.manifest.packageId);
    }

    // What a payload must pass to be installed.
    method ValidateInstall(caps: seq<string>, compiled: set<string>, p: Payload) returns (r: Result<(), Failure>)
      requires forall id :: id in manifests ==> Readable(S(), id)
      ensures r.Ok? <==> MayInstall(S(), p, caps, compiled)
      ensures r.Err? ==> r.error != TooManyPackages
    {
      hide Readable, ValidPayload, ParsePolicies, MayEnable;
      if !ValidPayload(p, compiled) { return Err(InvalidPayload); }
      var parsed := ParsePolicies(p.policies);
      if parsed.None? { return Err(BadPolicy); }
      if p.enableOnInstall {
        r := ValidateEnable(registry, p, parsed.value, caps);
      } else {
        r := Ok(());
      }
    }

    // The entry and bundle there are recorded, and payload and entry take their place.
    method ReplacePackage(p: Payload, entry: Entry, now: nat) returns (written: bool)
      requires Load(S(), p.manifest.packageId).Ok?
      modifies this
      ensures S() == Replaced(old(S()), p, now, registry)
      ensures written <==> |Upsert(old(registry), entry)| <= MAX_PACKAGES
      ensures registry == if written then Upsert(old(registry), entry) else old(registry)
    {
      hide WithBundle, Load, Upsert;
      var id := p.manifest.packageId;
      var previous := Find(registry, id);
      var bundle := ReadBundle(id);
      ghost var cleared := Discarded(S(), id, Operation.Install, now);
      WriteRollback(id, Operation.Install, now, previous, bundle.value);
      ClearPackage(id);
      assert S() == cleared;
      WriteBundle(p);
      written := WriteRegistry(Upsert(registry, entry));
    }

    // Nothing is touched when a check fails. Past the checks the package is
    // replaced; the registry then has no room for it or takes it up.
    method Install(caps: seq<string>, compiled: set<string>, p: Payload, now: nat)
        returns (r: Result<Outcome, Failure>)
      requires Good(S())
      modifies this
      ensures Good(S()) && OthersSame(old(S()), S(), p.manifest.packageId)
      ensures r.Ok? <==> MayInstall(old(S()), p, caps, compiled) && HasRoom(old(registry), p.manifest.packageId)
      ensures r.Ok? ==> Installed(old(S()), p, now, S())
      ensures r.Ok? ==> |registry| == |old(registry)| + if Find(old(registry), p.manifest.packageId).Some? then 0 else 1
      ensures r.Ok? ==>
        r.value == Outcome(p.manifest.packageId, Operation.Install, p.manifest.version, p.enableOnInstall)
      ensures r.Err? ==> registry == old(registry)
      ensures r == Err(TooManyPackages) <==>
        MayInstall(old(S()), p, caps, compiled) && !HasRoom(old(registry), p.manifest.packageId)
      ensures r == Err(TooManyPackages) ==>
                Load(S(), p.manifest.packageId) == Ok(Some(Normal(p)))
                && Recorded(old(S()), S(), p.manifest.packageId, Operation.Install, now)
      ensures r.Err? && r.error != TooManyPackages ==> S() == old(S())
    {
      hide Good, Load, Readable, OthersSame, MayInstall, Installed, Normal, Complete, Upsert, BuildEntry;
      hide HasRoom, Recorded;
      GoodParts(S());
      var checked := ValidateInstall(caps, compiled, p);
      if checked.Err? { return Err(checked.error); }
      var previous := Find(registry, p.manifest.packageId);
      var installedAt := if previous.Some? then previous.value.installedAt else now;
      var entry := BuildEntry(p.manifest, p.enableOnInstall, installedAt, now);
      ghost var s := S();
      var written := ReplacePackage(p, entry, now);
      ReplacedIsInstalled(s, p, caps, compiled, now, registry, written);
      if !written { return Err(TooManyPackages); }
      return Ok(Outcome(p.manifest.packageId, Operation.Install, p.manifest.version, p.enableOnInstall));
    }

    // A package that already has the flag is left alone, and with it whatever
    // record an earlier operation made.
    method SetEnabled(caps: seq<string>, packageId: string, enabled: bool, now: nat)
        returns (r: Result<Outcome, Failure>)
      requires Good(S())
      modifies this`registry, this`rollbacks
      ensures Good(S())
      ensures Normalize(packageId, MAX_ID).None? ==> r == Err(InvalidId)
      ensures r.Err? ==> S() == old(S())
      ensures Normalize(packageId, MAX_ID).Some? ==>
        var id := Normalize(packageId, MAX_ID).value;
        var entry := Find(old(registry), id);
        && (r == Err(NotInstalled) <==> entry.None?)
        && (entry.Some? && entry.value.enabled == enabled ==> r.Ok? && S() == old(S()))
        && (entry.Some? && entry.value.enabled != enabled ==>
             && (r.Ok? <==> MaySwitch(old(S()), id, enabled, caps))
             && (r.Ok? ==> Switched(old(S()), id, enabled, now, S())))
        && (r.Ok? ==> r.value == Outcome(id, if enabled then Enable else Disable, entry.value.version, enabled))
    {
      hide Good, Load, Readable, OthersSame, RecordOk, Admissible, PackageOverlays, ValidPayload, ParsePolicies;
      hide Sorted, Normalize;
      var normal := Normalize(packageId, MAX_ID);
      if normal.None? { return Err(InvalidId); }
      var id := normal.value;
      var found := Find(registry, id);
      if found.None? { return Err(NotInstalled); }
      var entry := found.value;
      if entry.enabled == enabled {
        return Ok(Outcome(id, if enabled then Enable else Disable, entry.version, enabled));
      }
      GoodParts(S());
      var bundle := ReadBundle(id);
      if bundle.value.None? { return Err(BundleMissing); }
      var payload := bundle.value.value;
      LoadedIsReadable(S(), id);
      if enabled {
        var checked := ValidateEnable(registry, payload, ParsePolicies(payload.policies).value, caps);
        if checked.Err? { return Err(checked.error); }
      }
      ghost var s := S();
      var op := if enabled then Enable else Disable;
      WriteRollback(id, op, now, found, bundle.value);
      var changed := Stamp(entry.(enabled := enabled, updatedAt := now), now);
      ReplaceLemma(registry, changed);
      SwitchStaysGood(s, id, op, now, Replace(registry, changed), caps);
      var _ := WriteRegistry(Replace(registry, changed));
      return Ok(Outcome(id, op, entry.version, enabled));
    }

    method UninstallPackage(packageId: string, now: nat) returns (r: Result<Outcome, Failure>)
      requires Good(S())
      modifies this
      ensures Good(S())
      ensures Normalize(packageId, MAX_ID).None? ==> r == Err(InvalidId)
      ensures r.Err? ==> S() == old(S())
      ensures Normalize(packageId, MAX_ID).Some? ==>
        var id := Normalize(packageId, MAX_ID).value;
        && (r == Err(NotInstalled) <==> Find(old(registry), id).None?)
        && (Find(old(registry), id).Some? ==>
             && Uninstalled(old(S()), id, now, S())
             && r == Ok(Outcome(id, Uninstall, Find(old(registry), id).value.version, false)))
    {
      hide Good, Load, Readable, OthersSame, RecordOk, Sorted, Normalize, NoFiles;
      var normal := Normalize(packageId, MAX_ID);
      if normal.None? { return Err(InvalidId); }
      var id := normal.value;
      var found := Find(registry, id);
      if found.None? { return Err(NotInstalled); }
      GoodParts(S());
      var bundle := ReadBundle(id);
      ghost var s, cleared := S(), Discarded(S(), id, Uninstall, now);
      DiscardedLemma(s, id, Uninstall, now);
      WriteRollback(id, Uninstall, now, found, bundle.value);
      ClearPackage(id);
      assert S() == cleared;
      RemoveLemma(registry, id);
      WithRegistry(s, cleared, id, Remove(registry, id));
      SameFileNames(cleared, Remove(registry, id), id);
      var _ := WriteRegistry(Remove(registry, id));
      QuietStaysGood(s, S(), id);
      NothingToLoad(S(), id);
      return Ok(Outcome(id, Uninstall, found.value.version, false));
    }

    // The recorded bundle goes through the checks of an install again.
    method ValidateRecord(entries: seq<Entry>, record: Record, caps: seq<string>, compiled: set<string>)
        returns (r: Result<(), Failure>)
      requires forall id :: id in manifests ==> Readable(S(), id)
      requires record.previousBundle.Some?
      ensures r.Ok? <==> Restorable(S(), entries, record, caps, compiled)
      ensures r.Err? ==> r.error in {InvalidPayload, BadPolicy, MissingCapability, WorkflowConflict, PolicyConflict}
    {
      hide Readable, ValidPayload, ParsePolicies;
      var p := record.previousBundle.value;
      if !ValidPayload(p, compiled) { return Err(InvalidPayload); }
      var parsed := ParsePolicies(p.policies);
      if parsed.None? { return Err(BadPolicy); }
      if record.previousEntry.Some? && record.previousEntry.value.enabled {
        r := ValidateEnable(entries, p, parsed.value, caps);
      } else {
        r := Ok(());
      }
    }

    // The recorded bundle is written, and the recorded entry joins the others.
    method PutBack(record: Record, others: seq<Entry>, now: nat) returns (written: bool)
      modifies this`registry, this`manifests, this`files
      ensures S() == Restored(old(S()), record.previousBundle, registry)
      ensures written <==> |EntriesAfter(others, record.previousEntry, now)| <= MAX_PACKAGES
      ensures registry == if written then EntriesAfter(others, record.previousEntry, now) else old(registry)
    {
      hide WithBundle;
      if record.previousBundle.Some? { WriteBundle(record.previousBundle.value); }
      if record.previousEntry.Some? {
        written := WriteRegistry(Upsert(others, Stamp(record.previousEntry.value, now)));
      } else {
        written := WriteRegistry(others);
      }
    }

    // The package is taken away before what is to replace it is checked, so a
    // refused rollback leaves it without its bundle.
    method RollbackPackage(caps: seq<string>, compiled: set<string>, packageId: string, now: nat)
        returns (r: Result<Outcome, Failure>)
      requires Good(S())
      modifies this
      ensures Good(S())
      ensures Normalize(packageId, MAX_ID).None? ==> r == Err(InvalidId) && S() == old(S())
      ensures Normalize(packageId, MAX_ID).Some? ==>
        var id := Normalize(packageId, MAX_ID).value;
        && (r == Err(NoRollback) <==> id !in old(rollbacks))
        && (id !in old(rollbacks) ==> S() == old(S()))
        && (id in old(rollbacks) ==>
             && (r.Ok? <==> MayRestore(old(S()), id, caps, compiled))
             && (r == Err(TooManyPackages) <==>
                  && Restorable(old(S()), old(registry), old(rollbacks)[id], caps, compiled)
                  && old(rollbacks)[id].previousEntry.Some? && !HasRoom(old(registry), id))
             && (r.Ok? ==> RolledBack(old(S()), id, now, S()))
             && (r.Ok? ==> r.value.packageId == id && r.value.operation == Rollback
                           && (r.value.enabled <==> Enabled(registry, id)))
             && (r.Err? ==> registry == old(registry) && OthersSame(old(S()), S(), id)
                            && Recorded(old(S()), S(), id, Rollback, now))
             && (r.Err? && r.error != TooManyPackages ==> Load(S(), id) == Ok(None))
             && (r == Err(TooManyPackages) ==> Load(S(), id) == Ok(old(rollbacks)[id].previousBundle)))
    {
      hide Good, Load, Readable, OthersSame, Admissible, PackageOverlays, ValidPayload, ParsePolicies;
      hide Sorted, Normalize, NoFiles;
      var normal := Normalize(packageId, MAX_ID);
      if normal.None? { return Err(InvalidId); }
      var id := normal.value;
      if id !in rollbacks { return Err(NoRollback); }
      var record := rollbacks[id];
      var found := Find(registry, id);
      GoodParts(S());
      var bundle := ReadBundle(id);
      ghost var s, d := S(), Discarded(S(), id, Rollback, now);
      DiscardedLemma(s, id, Rollback, now);
      GoodParts(d);
      WriteRollback(id, Rollback, now, found, bundle.value);
      var others := Remove(registry, id);
      RemoveLemma(registry, id);
      ClearPackage(id);
      assert S() == d;
      NothingToLoad(d, id);
      RestorableElsewhere(s, d, id, others, record, caps, compiled);
      if record.previousBundle.Some? {
        var checked := ValidateRecord(others, record, caps, compiled);
        if checked.Err? { return Err(checked.error); }
      }
      var written := PutBack(record, others, now);
      EntriesAfterLemma(s.registry, id, record, now);
      hide Restored, Discarded, EntriesAfter, Stamp;
      RestoredIsRolledBack(s, id, now, registry, written, caps, compiled);
      if !written { return Err(TooManyPackages); }
      if record.previousEntry.Some? {
        return Ok(Outcome(id, Rollback, record.previousEntry.value.version, record.previousEntry.value.enabled));
      }
      return Ok(Outcome(id, Rollback, "", false));
    }
  }

  method AnyIdIn(refs: seq<Ref>, ids: set<string>) returns (found: bool)
    ensures found <==> exists r :: r in refs && r.id in ids
  {
    for i := 0 to |refs|
      invariant forall j :: 0 <= j < i ==> refs[j].id !in ids
    {
      if refs[i].id in ids { return true; }
    }
    return false;
  }

  lemma SharedWorkflow(m: Manifest, n: Manifest, ids: set<string>)
    requires ids == set w | w in m.workflows :: w.id
    ensures SharesWorkflow(m, n) <==> exists w :: w in n.workflows && w.id in ids
  {}

  lemma SameFileNames(st: Store, reg: seq<Entry>, id: string)
    ensures NoFiles(st, id) <==> NoFiles(st.(registry := reg), id)
  {}

  lemma NothingToLoad(st: Store, id: string)
    ensures Load(st, id) == Ok(None) <==> id !in st.manifests
  {}

  lemma LoadedIsReadable(st: Store, id: string)
    requires Good(st) && Load(st, id).Ok? && Load(st, id).value.Some?
    ensures Readable(st, id) && ParsePolicies(Load(st, id).value.value.policies).Some?
    ensures Load(st, id).value.value.manifest == st.manifests[id]
    ensures Load(st, id).value.value.manifest.packageId == id
  {
    hide ParsePolicies;
    LoadIsLoaded(st, id);
    assert id in st.manifests;
  }

  lemma GoodParts(st: Store)
    requires Good(st)
    ensures Sorted(st.registry) && |st.registry| <= MAX_PACKAGES
    ensures forall id :: id in st.manifests ==> Readable(st, id)
    ensures forall id :: OthersSame(st, st, id)
    ensures forall id :: id in st.rollbacks ==> RecordOk(id, st.rollbacks[id])
    ensures forall id :: Load(st, id).Ok?
  {
    hide PackageOverlays, ParsePolicies;
  }

  lemma NothingRepresents(st: Store)
    ensures Represents(map[], OverlaysOf(st, {}))
  {}

  // A conflict among some of the rivals is one among all of them.
  lemma RefusedEarly(st: Store, entries: seq<Entry>, m: Manifest, exclude: string, i: nat, os: set<Overlay>)
    requires i <= |entries| && !Consistent(OverlaysOf(st, Rivals(st, entries[..i], m, exclude)))
    ensures !Admissible(st, entries, m, os, exclude)
  {
    RivalsOfPrefix(st, entries, m, exclude, i);
    var some := OverlaysOf(st, Rivals(st, entries[..i], m, exclude));
    var all := OverlaysOf(st, Rivals(st, entries, m, exclude));
    if Consistent(all + os) { ConsistentSubset(all + os, some); }
  }
}
