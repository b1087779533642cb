// Runs of operations from an empty store that end where one would not expect.
module CapExample {
  import opened Wrappers
  import opened CapPolicy
  import opened CapModel
  import opened CapStore
  import opened CapLifecycle
  import opened CapOperations
  import opened CapRuns
  import Utf8

  const CHANNELS: set<string> := {"telegram", "feishu"}
  const SHOW := Overlay("web_search", ForceVisible, Inherit, Inherit)
  const HIDE := Overlay("web_search", ForceHidden, Inherit, Inherit)

  // A package with one policy document.
  function OneTool(id: string, channel: string, o: Overlay): Payload {
    Payload(Manifest(id, "1", [], [channel], [], [], [Ref("p", "policies/p")], []),
            [], [], [File("policies/p", PolicyJson(Document("p", [o]), 1))], [], true)
  }

  // A package with nothing in it.
  function Plain(id: string, enable: bool): Payload {
    Payload(Manifest(id, "1", [], ["*"], [], [], [], []), [], [], [], [], enable)
  }

  lemma PlainIsValid(id: string, enable: bool)
    requires Normalize(id, MAX_ID).Some?
    ensures ValidPayload(Plain(id, enable), CHANNELS)
    ensures ParsePolicies(Plain(id, enable).policies) == Some([])
  {
    assert Normalize("1", MAX_VERSION).Some?;
    assert ParsePolicies(Plain(id, enable).policies).value == [];
  }

  lemma ToolName()
    ensures Normalize("web_search", MAX_ID).Some? && Normalize("p", MAX_ID).Some? && Normalize("1", MAX_VERSION).Some?
  {
    NoSpaces("web_search");
  }

  lemma OneToolIsValid(id: string, channel: string, o: Overlay)
    requires Normalize(id, MAX_ID).Some? && channel in CHANNELS && o.tool == "web_search"
    ensures ValidPayload(OneTool(id, channel, o), CHANNELS)
  {
    ToolName();
    hide Normalize;
    var p := OneTool(id, channel, o);
    PolicyPath();
    assert p.policies[0] in p.policies;
    assert AllPresent(p.manifest.policies, p.policies);
  }

  lemma PolicyPath()
    ensures SafePath("policies/p", Prefix(Policies))
  {
    assert "policies/p"[..9] == "policies/";
  }

  lemma OneToolParses(id: string, channel: string, o: Overlay)
    ensures ParsePolicies(OneTool(id, channel, o).policies) == Some([Document("p", [o])])
  {
    assert ParsePolicies(OneTool(id, channel, o).policies).value == [Document("p", [o])];
  }

  lemma OneToolIsNormal(id: string, channel: string, o: Overlay)
    requires Complete(OneTool(id, channel, o))
    ensures Normal(OneTool(id, channel, o)).policies == OneTool(id, channel, o).policies
  {}

  lemma TheirOverlays(o: Overlay)
    ensures Overlays([Document("p", [o])]) == {o}
  {
    assert Document("p", [o]) in [Document("p", [o])] && o in [o];
  }

  // What is installed of a package with one policy document.
  lemma OneToolInstalled(st: Store, id: string, channel: string, o: Overlay)
    requires Good(st) && Normalize(id, MAX_ID).Some? && channel in CHANNELS && o.tool == "web_search"
    requires Complete(OneTool(id, channel, o)) && Load(st, id) == Ok(Some(Normal(OneTool(id, channel, o))))
    ensures id in st.manifests && st.manifests[id] == OneTool(id, channel, o).manifest
    ensures PackageOverlays(st, id) == {o}
  {
    OneToolParses(id, channel, o);
    OneToolIsNormal(id, channel, o);
    LoadIsLoaded(st, id);
    assert Readable(st, id);
    ParsedOverlays(st, id);
    TheirOverlays(o);
  }

  // A package is admitted where no enabled package overlaps with it.
  lemma AdmittedAlone(st: Store, m: Manifest, o: Overlay, id: string)
    requires Good(st)
    requires forall q :: q != id && Enabled(st.registry, q) && q in st.manifests ==>
      !ChannelsOverlap(m.channels, st.manifests[q].channels)
    ensures Admissible(st, st.registry, m, {o}, id)
  {
    forall q ensures q !in Rivals(st, st.registry, m, id) {
      RivalsByFind(st, st.registry, m, id, q);
    }
    assert Rivals(st, st.registry, m, id) == {};
    assert OverlaysOf(st, {}) + {o} == {o};
  }

  // Two enabled packages, and a third whose overlaps with both show their disagreement.
  lemma Quarrel(st: Store, m: Manifest)
    requires Good(st) && m.channels == ["*"] && m.packageId == "c"
    requires Enabled(st.registry, "a") && "a" in st.manifests && PackageOverlays(st, "a") == {SHOW}
    requires Enabled(st.registry, "b") && "b" in st.manifests && PackageOverlays(st, "b") == {HIDE}
    ensures !Admissible(st, st.registry, m, {}, "c")
  {
    assert "*" in m.channels;
    RivalsByFind(st, st.registry, m, "c", "a");
    RivalsByFind(st, st.registry, m, "c", "b");
    var rivals := Rivals(st, st.registry, m, "c");
    assert "a" in rivals && "b" in rivals;
    var all := OverlaysOf(st, rivals) + {};
    assert SHOW in PackageOverlays(st, "a") && HIDE in PackageOverlays(st, "b");
    assert SHOW in all && HIDE in all && Opposed(SHOW, HIDE, UserLlm);
  }

  // A package with one overlay can be installed where no enabled package overlaps with it.
  lemma MayInstallAlone(st: Store, id: string, channel: string, o: Overlay)
    requires Good(st) && Normalize(id, MAX_ID).Some? && channel in CHANNELS && o.tool == "web_search"
    requires forall q :: q != id && Enabled(st.registry, q) && q in st.manifests ==>
      !ChannelsOverlap([channel], st.manifests[q].channels)
    ensures MayInstall(st, OneTool(id, channel, o), [], CHANNELS)
  {
    hide Good, ValidPayload, ParsePolicies, Admissible, Overlays, Normalize;
    OneToolIsValid(id, channel, o);
    OneToolParses(id, channel, o);
    TheirOverlays(o);
    AdmittedAlone(st, OneTool(id, channel, o).manifest, o, id);
  }

  // The store after it: enabled, with its one overlay.
  ghost predicate Shows(st: Store, id: string, channel: string, o: Overlay) {
    && Enabled(st.registry, id) && id in st.manifests && st.manifests[id] == OneTool(id, channel, o).manifest
    && PackageOverlays(st, id) == {o}
  }

  lemma InstalledShows(s: Store, id: string, channel: string, o: Overlay, t: Store)
    requires Good(t) && Normalize(id, MAX_ID).Some? && channel in CHANNELS && o.tool == "web_search"
    requires Complete(OneTool(id, channel, o)) && Installed(s, OneTool(id, channel, o), 0, t)
    ensures Shows(t, id, channel, o)
  {
    hide Good, Load, PackageOverlays, Normal, Complete, OthersSame;
    OneToolInstalled(t, id, channel, o);
  }

  method InstallOneTool(fs: StateFs, id: string, channel: string, o: Overlay) returns (r: Result<Outcome, Failure>)
    requires Good(fs.S()) && Normalize(id, MAX_ID).Some? && channel in CHANNELS && o.tool == "web_search"
    requires HasRoom(fs.registry, id)
    requires forall q :: q != id && Enabled(fs.registry, q) && q in fs.manifests ==>
      !ChannelsOverlap([channel], fs.manifests[q].channels)
    modifies fs
    ensures Good(fs.S()) && r.Ok? && OthersSame(old(fs.S()), fs.S(), id) && Shows(fs.S(), id, channel, o)
    ensures |fs.registry| <= |old(fs.registry)| + 1
  {
    hide Good, Load, Readable, OthersSame, Installed, MayInstall, Shows, Normalize, Normal, HasRoom;
    ghost var s := fs.S();
    MayInstallAlone(s, id, channel, o);
    r := fs.Install([], CHANNELS, OneTool(id, channel, o), 0);
    InstalledShows(s, id, channel, o, fs.S());
  }

  // Admission asks more than agreement with each enabled package: a package for every
  // channel, with no overlays and no workflows, is refused because two enabled packages
  // that never meet disagree. st is the store that refuses it.
  method AdmissionRefusesTheBlameless()
      returns (fs: StateFs, first: Result<Outcome, Failure>, second: Result<Outcome, Failure>,
               third: Result<Outcome, Failure>, ghost st: Store)
    ensures first.Ok? && second.Ok? && third.Err? && fs.S() == st && Good(st)
    ensures ValidPayload(Plain("c", true), CHANNELS) && HasRoom(st.registry, "c")
    ensures forall q :: Live(st, q) ==>
              Compatible(Plain("c", true).manifest, {}, st.manifests[q], PackageOverlays(st, q))
    ensures !Admissible(st, st.registry, Plain("c", true).manifest, {}, "c")
  {
    hide Good, Load, Readable, Admissible, ValidPayload, OthersSame, PackageOverlays, ParsePolicies;
    Names();
    fs := new StateFs();
    ghost var s0 := fs.S();
    NothingEnabled();
    first := InstallOneTool(fs, "a", "telegram", SHOW);
    ghost var s1 := fs.S();
    OnlyOneEnabled(s0, s1, "a");
    second := InstallOneTool(fs, "b", "feishu", HIDE);
    st := fs.S();
    StillThere(s1, st, "b", "a");
    Quarrel(st, Plain("c", true).manifest);
    third := InstallBlameless(fs);
  }

  // The third install, in a store where it is not admissible.
  method InstallBlameless(fs: StateFs) returns (r: Result<Outcome, Failure>)
    requires Good(fs.S()) && Normalize("c", MAX_ID).Some?
    requires !Admissible(fs.S(), fs.registry, Plain("c", true).manifest, {}, "c")
    modifies fs
    ensures r.Err? && fs.S() == old(fs.S()) && ValidPayload(Plain("c", true), CHANNELS)
  {
    hide Good, Load, Readable, Admissible, ValidPayload, OthersSame, Normalize, ParsePolicies, Installed;
    PlainIsValid("c", true);
    NoOverlays();
    r := fs.Install([], CHANNELS, Plain("c", true), 0);
  }

  lemma Names()
    ensures Normalize("a", MAX_ID).Some? && Normalize("b", MAX_ID).Some? && Normalize("c", MAX_ID).Some?
  {}

  lemma NoOverlays()
    ensures Overlays([]) == {}
  {}

  lemma NothingEnabled()
    ensures forall q :: !Enabled(EMPTY.registry, q)
  {}

  lemma OnlyOneEnabled(s: Store, t: Store, id: string)
    requires OthersSame(s, t, id) && forall q :: !Enabled(s.registry, q)
    ensures forall q :: q != id ==> !Enabled(t.registry, q)
  {
    forall q | q != id ensures !Enabled(t.registry, q) {
      assert Find(s.registry, q) == Find(t.registry, q);
      assert !Enabled(s.registry, q);
    }
  }

  lemma StillThere(s: Store, t: Store, id: string, q: string)
    requires OthersSame(s, t, id) && q != id
    ensures Find(s.registry, q) == Find(t.registry, q) && PackageOverlays(s, q) == PackageOverlays(t, q)
    ensures q in s.manifests <==> q in t.manifests
  {
    assert SamePackage(s, t, q);
    SameLoad(s, t, q);
  }

  // ----- a record that cannot be restored

  // Two skills in one file.
  const TWICE := Payload(
    Manifest("a", "1", [], ["*"], [Ref("x", "skills/s"), Ref("y", "skills/s")], [], [], []),
    [File("skills/s", Text("s"))], [], [], [], true)

  lemma SkillFile()
    ensures SafePath("skills/s", Prefix(Skills)) && Utf8.Len("s") == 1
    ensures Normalize("x", MAX_ID).Some? && Normalize("y", MAX_ID).Some?
  {
    assert "skills/s"[..7] == "skills/" && "s"[..0] == "";
  }

  lemma TwiceIsValid()
    ensures ValidPayload(TWICE, CHANNELS) && Complete(TWICE)
  {
    Names();
    ToolName();
    SkillFile();
    hide Normalize, SafePath, Utf8.Len;
    assert TWICE.skills[0] in TWICE.skills;
    assert AllPresent(TWICE.manifest.skills, TWICE.skills);
  }

  // A package that passes validation when it is installed, and not when it is reloaded.
  lemma TwiceIsNotReloadable()
    ensures ValidPayload(TWICE, CHANNELS) && Complete(TWICE) && !ValidPayload(Normal(TWICE), CHANNELS)
    ensures ParsePolicies(TWICE.policies) == Some([])
  {
    TwiceIsValid();
    assert TWICE.manifest.skills[0].path == TWICE.manifest.skills[1].path;
    hide ValidPayload, Complete, Normal;
    ReloadedIsValid(TWICE, CHANNELS);
    assert ParsePolicies(TWICE.policies).value == [];
  }

  lemma TwiceIsAdmitted()
    ensures Admissible(EMPTY, [], TWICE.manifest, {}, "a")
  {
    var rivals := Rivals(EMPTY, [], TWICE.manifest, "a");
    assert rivals == {} && OverlaysOf(EMPTY, {}) + {} == {};
  }

  lemma MayInstallTwice()
    ensures MayInstall(EMPTY, TWICE, [], CHANNELS) && HasRoom(EMPTY.registry, "a") && Complete(TWICE)
  {
    hide ValidPayload, ParsePolicies, Admissible, Complete;
    TwiceIsNotReloadable();
    NoOverlays();
    TwiceIsAdmitted();
  }

  lemma MayInstallPlain(st: Store, id: string)
    requires Normalize(id, MAX_ID).Some?
    ensures MayInstall(st, Plain(id, false), [], CHANNELS)
  {
    hide ValidPayload, ParsePolicies, Normalize;
    PlainIsValid(id, false);
  }

  // The record of a store on which TWICE was replaced.
  ghost predicate HoldsTwice(st: Store)
    requires Complete(TWICE)
  {
    "a" in st.rollbacks && st.rollbacks["a"].previousBundle == Some(Normal(TWICE))
  }

  lemma MayNotRestoreTwice(st: Store, caps: seq<string>)
    requires Complete(TWICE) && HoldsTwice(st)
    ensures !Restorable(st, st.registry, st.rollbacks["a"], caps, CHANNELS)
  {
    hide ValidPayload, ParsePolicies, Normal, Complete;
    TwiceIsNotReloadable();
  }

  lemma TwiceReplaced(s: Store, t: Store, op: Operation)
    requires Complete(TWICE) && Load(s, "a") == Ok(Some(Normal(TWICE))) && Recorded(s, t, "a", op, 1)
    ensures HoldsTwice(t)
  {}

  lemma NameOfA()
    ensures Normalize("a", MAX_ID) == Some("a")
  {
    NoSpaces("a");
  }

  lemma RoomForKnown(entries: seq<Entry>, id: string)
    requires Find(entries, id).Some?
    ensures HasRoom(entries, id)
  {}

  // It is installed, replaced by another version, and cannot be rolled back to: the version
  // that replaced it is gone, and its entry, without a bundle, stays.
  method RollbackIsRefused()
      returns (fs: StateFs, first: Result<Outcome, Failure>, second: Result<Outcome, Failure>,
               third: Result<Outcome, Failure>)
    ensures first.Ok? && second.Ok? && third.Err?
    ensures Find(fs.registry, "a").Some? && Load(fs.S(), "a") == Ok(None)
  {
    hide Good, Load, Readable, OthersSame, MayInstall, Restorable, ValidPayload, ParsePolicies, Normalize, Normal;
    hide HasRoom, Complete, NoFiles, HoldsTwice;
    fs := new StateFs();
    MayInstallTwice();
    NameOfA();
    first := fs.Install([], CHANNELS, TWICE, 0);
    ghost var s1 := fs.S();
    MayInstallPlain(s1, "a");
    RoomForKnown(s1.registry, "a");
    second := fs.Install([], CHANNELS, Plain("a", false), 1);
    ghost var s2 := fs.S();
    TwiceReplaced(s1, s2, Operation.Install);
    MayNotRestoreTwice(s2, []);
    third := fs.RollbackPackage([], CHANNELS, "a", 2);
  }

  // ----- a disable that leaves no record

  // A package is installed, disabled although it already is, and rolled back: it is gone.
  method DisabledTwiceIsUninstalled()
      returns (fs: StateFs, first: Result<Outcome, Failure>, second: Result<Outcome, Failure>,
               third: Result<Outcome, Failure>, ghost before: Store)
    ensures first.Ok? && second.Ok? && third.Ok?
    ensures Find(before.registry, "a").Some? && Load(before, "a") == Ok(Some(Plain("a", false)))
    ensures Find(fs.registry, "a").None? && Load(fs.S(), "a") == Ok(None)
    ensures FlagAlreadySet(before, Step(DoSetEnabled("a", false), [], CHANNELS, 1)) && !OnRecord(before, "a")
  {
    hide Good, Load, Readable, OthersSame, MayInstall, ValidPayload, ParsePolicies, Normalize, Normal, Complete;
    hide MaySwitch;
    fs := new StateFs();
    ghost var s := fs.S();
    NameOfA();
    MayInstallPlain(s, "a");
    PlainIsNormal("a");
    NothingToLoad(s, "a");
    first := fs.Install([], CHANNELS, Plain("a", false), 0);
    before := fs.S();
    second := fs.SetEnabled([], "a", false, 1);
    third := fs.RollbackPackage([], CHANNELS, "a", 2);
  }

  // ----- an id that cannot be named

  // It is accepted with the white space, which no argument keeps.
  lemma SpacedIdIsUnnamable()
    ensures Normalize(" a", MAX_ID).Some? && !exists argument :: Normalize(argument, MAX_ID) == Some(" a")
  {
    assert " a"[1..] == "a";
    assert TrimLeft(" a") == "a" && TrimRight("a") == "a";
    NamedExactly(" a");
  }

  lemma SpacedIsA()
    ensures Normalize(" a", MAX_ID) == Some("a")
  {
    assert " a"[1..] == "a";
    assert TrimLeft(" a") == "a" && TrimRight("a") == "a";
  }

  // Its package is installed, and cannot be uninstalled by its own id.
  method SpacedIdStays() returns (fs: StateFs, first: Result<Outcome, Failure>, second: Result<Outcome, Failure>)
    ensures first.Ok? && second == Err(NotInstalled) && Find(fs.registry, " a").Some?
  {
    hide Good, Load, Readable, MayInstall, ValidPayload, ParsePolicies, Normalize, Normal, Complete, NoFiles;
    fs := new StateFs();
    ghost var s := fs.S();
    SpacedIsA();
    MayInstallPlain(s, " a");
    first := fs.Install([], CHANNELS, Plain(" a", false), 0);
    assert Find(fs.registry, "a") == Find(s.registry, "a");
    second := fs.UninstallPackage(" a", 1);
  }

  // ----- one package too many

  function Letter(i: nat): string
    requires i < 26
  {
    [(97 + i) as char]
  }

  lemma LetterIsAnId(i: nat)
    requires i < 26
    ensures Normalize(Letter(i), MAX_ID) == Some(Letter(i))
  {
    NoSpaces(Letter(i));
  }

  lemma LettersDiffer(i: nat, j: nat)
    requires i < 26 && j < 26 && i != j
    ensures Letter(i) != Letter(j)
  {
    assert Letter(i)[0] != Letter(j)[0];
  }

  lemma NotYetInstalled(s: Store, t: Store, i: nat)
    requires i < 25 && OthersSame(s, t, Letter(i))
    requires forall j :: i <= j < 25 ==> Find(s.registry, Letter(j)).None?
    ensures forall j :: i + 1 <= j < 25 ==> Find(t.registry, Letter(j)).None?
  {
    forall j | i + 1 <= j < 25 ensures Find(t.registry, Letter(j)).None? {
      LettersDiffer(i, j);
      assert Find(s.registry, Letter(j)) == Find(t.registry, Letter(j));
    }
  }

  // After 24 packages the next install fails, and leaves a bundle without an entry.
  method OnePackageTooMany() returns (fs: StateFs, last: Result<Outcome, Failure>)
    ensures last == Err(TooManyPackages) && |fs.registry| == MAX_PACKAGES
    ensures Find(fs.registry, Letter(24)).None? && Load(fs.S(), Letter(24)) == Ok(Some(Plain(Letter(24), false)))
  {
    hide Good, Load, Readable, OthersSame, MayInstall, ValidPayload, ParsePolicies, Normalize;
    hide Installed, Complete, Letter;
    fs := new StateFs();
    for i := 0 to 24
      invariant fresh(fs) && Good(fs.S()) && |fs.registry| == i
      invariant forall j :: i <= j < 25 ==> Find(fs.registry, Letter(j)).None?
    {
      ghost var s := fs.S();
      LetterIsAnId(i);
      MayInstallPlain(s, Letter(i));
      var r := fs.Install([], CHANNELS, Plain(Letter(i), false), 0);
      NotYetInstalled(s, fs.S(), i);
    }
    LetterIsAnId(24);
    MayInstallPlain(fs.S(), Letter(24));
    PlainIsNormal(Letter(24));
    last := fs.Install([], CHANNELS, Plain(Letter(24), false), 0);
  }

  lemma PlainIsNormal(id: string)
    ensures Complete(Plain(id, false)) && Normal(Plain(id, false)) == Plain(id, false)
  {}
}
