// Tool policy overlays of capability packages and their merge. What a merge
// means is said by the set of overlays that went into it, so order, repetition
// and grouping cannot matter.
module CapPolicy {
  import opened Wrappers

  datatype Visibility = Inherit | ForceVisible | ForceHidden

  datatype Audience = UserLlm | SystemLlm | InternalSystemLlm

  datatype Overlay = Overlay(tool: string, user: Visibility, system: Visibility, internal: Visibility) {
    function On(a: Audience): Visibility {
      match a
      case UserLlm => user
      case SystemLlm => system
      case InternalSystemLlm => internal
    }
  }

  datatype Document = Document(policyId: string, overlays: seq<Overlay>)

  datatype Resolved = Resolved(user: Visibility, system: Visibility, internal: Visibility, sources: seq<string>) {
    function On(a: Audience): Visibility {
      match a
      case UserLlm => user
      case SystemLlm => system
      case InternalSystemLlm => internal
    }
  }

  type PolicySet = map<string, Resolved>

  datatype Error = Conflict(tool: string)

  // ----- meaning

  // The overlays in all documents.
  function Overlays(docs: seq<Document>): set<Overlay> {
    set d, o | d in docs && o in d.overlays :: o
  }

  lemma OverlaysStep(docs: seq<Document>, i: nat)
    requires i < |docs|
    ensures Overlays(docs[..i + 1]) == Overlays(docs[..i]) + set o | o in docs[i].overlays
  {
    var more := docs[..i + 1];
    assert more == docs[..i] + [docs[i]];
    forall o | o in Overlays(docs[..i]) ensures o in Overlays(more) {
      var d :| d in docs[..i] && o in d.overlays;
      assert d in more;
    }
    forall o | o in docs[i].overlays ensures o in Overlays(more) {
      assert docs[i] in more;
    }
  }

  ghost predicate Forces(os: set<Overlay>, tool: string, a: Audience, v: Visibility) {
    v != Inherit && exists o :: o in os && o.tool == tool && o.On(a) == v
  }

  ghost predicate Opposed(o: Overlay, p: Overlay, a: Audience) {
    o.tool == p.tool && o.On(a) == ForceVisible && p.On(a) == ForceHidden
  }

  // No tool is both forced visible and forced hidden for one audience.
  ghost predicate Consistent(os: set<Overlay>) {
    forall o, p, a :: o in os && p in os ==> !Opposed(o, p, a)
  }

  ghost predicate CrossConsistent(os: set<Overlay>, ps: set<Overlay>) {
    forall o, p, a :: o in os && p in ps ==> !Opposed(o, p, a) && !Opposed(p, o, a)
  }

  // set is what merging the overlays os gives.
  ghost predicate Represents(merged: PolicySet, os: set<Overlay>) {
    && (forall o :: o in os ==> o.tool in merged)
    && (forall t :: t in merged ==> exists o :: o in os && o.tool == t)
    && (forall t, a, v :: t in merged && v != Inherit ==> (merged[t].On(a) == v <==> Forces(os, t, a, v)))
  }

  lemma RepresentedIsConsistent(merged: PolicySet, os: set<Overlay>)
    requires Represents(merged, os)
    ensures Consistent(os)
  {
    forall o, p, a | o in os && p in os ensures !Opposed(o, p, a) {
      if Opposed(o, p, a) {
        assert Forces(os, o.tool, a, ForceVisible) && Forces(os, o.tool, a, ForceHidden);
        assert false;
      }
    }
  }

  // Two merges of the same overlays show every tool alike: the order in which
  // packages and documents are merged does not matter.
  lemma MergeIsOrderIndependent(m: PolicySet, n: PolicySet, os: set<Overlay>)
    requires Represents(m, os) && Represents(n, os)
    ensures m.Keys == n.Keys
    ensures forall t, a :: t in m ==> m[t].On(a) == n[t].On(a)
  {
    forall t | t in m ensures t in n {}
    forall t | t in n ensures t in m {}
    forall t, a | t in m ensures m[t].On(a) == n[t].On(a) {
      var v, w := m[t].On(a), n[t].On(a);
      if v != Inherit { assert Forces(os, t, a, v); }
      if w != Inherit { assert Forces(os, t, a, w); }
    }
  }

  lemma ConsistentSubset(os: set<Overlay>, ps: set<Overlay>)
    requires ps <= os && Consistent(os)
    ensures Consistent(ps)
  {}

  lemma ConsistentUnion(os: set<Overlay>, ps: set<Overlay>)
    ensures Consistent(os + ps) <==> Consistent(os) && Consistent(ps) && CrossConsistent(os, ps)
  {
    if Consistent(os + ps) {
      assert Consistent(os) && Consistent(ps);
      forall o, p, a | o in os && p in ps ensures !Opposed(o, p, a) && !Opposed(p, o, a) {}
    }
  }

  // ----- the code

  function MergeVisibility(current: Visibility, incoming: Visibility): Option<Visibility> {
    if current == Inherit then Some(incoming)
    else if incoming == Inherit || current == incoming then Some(current)
    else None
  }

  // The packages listed as sources of a tool.
  ghost function Sources(merged: PolicySet, tool: string): seq<string> {
    if tool in merged then merged[tool].sources else []
  }

  // A package joins the sources of a tool it has an overlay for, at the end and once.
  ghost function AddSource(sources: seq<string>, packageId: string, touched: bool): seq<string> {
    if touched && packageId !in sources then sources + [packageId] else sources
  }

  ghost predicate Touches(os: set<Overlay>, tool: string) { exists o :: o in os && o.tool == tool }

  lemma AddedTwice(sources: seq<string>, packageId: string, os: set<Overlay>, ps: set<Overlay>, tool: string)
    ensures AddSource(AddSource(sources, packageId, Touches(os, tool)), packageId, Touches(ps, tool))
            == AddSource(sources, packageId, Touches(os + ps, tool))
  {
    if o :| o in os && o.tool == tool { assert o in os + ps; }
    if o :| o in ps && o.tool == tool { assert o in os + ps; }
  }

  // One overlay into the set so far, overlay by overlay and audience by audience.
  method MergeOverlay(merged: PolicySet, packageId: string, o: Overlay, ghost os: set<Overlay>)
      returns (r: Result<PolicySet, Error>)
    requires Represents(merged, os)
    ensures r.Ok? <==> Consistent(os + {o})
    ensures r.Ok? ==> Represents(r.value, os + {o})
    ensures r.Err? ==> r.error.tool == o.tool
    ensures r.Ok? ==> r.value.Keys == merged.Keys + {o.tool}
    ensures r.Ok? ==> forall t :: Sources(r.value, t) == AddSource(Sources(merged, t), packageId, t == o.tool)
  {
    RepresentedIsConsistent(merged, os);
    var resolved := Resolved(o.user, o.system, o.internal, [packageId]);
    if o.tool in merged {
      var existing := merged[o.tool];
      var user := MergeVisibility(existing.user, o.user);
      if user.None? { Clash(merged, os, o, UserLlm); return Err(Conflict(o.tool)); }
      var system := MergeVisibility(existing.system, o.system);
      if system.None? { Clash(merged, os, o, SystemLlm); return Err(Conflict(o.tool)); }
      var internal := MergeVisibility(existing.internal, o.internal);
      if internal.None? { Clash(merged, os, o, InternalSystemLlm); return Err(Conflict(o.tool)); }
      resolved := Resolved(user.value, system.value, internal.value,
                           if packageId in existing.sources then existing.sources else existing.sources + [packageId]);
    }
    var next := merged[o.tool := resolved];
    JoinRepresents(merged, os, o, next);
    return Ok(next);
  }

  lemma Clash(merged: PolicySet, os: set<Overlay>, o: Overlay, a: Audience)
    requires Represents(merged, os) && o.tool in merged && MergeVisibility(merged[o.tool].On(a), o.On(a)).None?
    ensures !Consistent(os + {o})
  {
    assert Forces(os, o.tool, a, merged[o.tool].On(a));
    var p :| p in os && p.tool == o.tool && p.On(a) == merged[o.tool].On(a);
    assert Opposed(o, p, a) || Opposed(p, o, a);
  }

  ghost predicate JoinsAt(merged: PolicySet, o: Overlay, next: PolicySet) {
    && next.Keys == merged.Keys + {o.tool}
    && (forall t :: t in merged && t != o.tool ==> next[t] == merged[t])
    && forall a :: if o.tool in merged
                   then MergeVisibility(merged[o.tool].On(a), o.On(a)) == Some(next[o.tool].On(a))
                   else next[o.tool].On(a) == o.On(a)
  }

  lemma JoinForces(
      merged: PolicySet, os: set<Overlay>, o: Overlay, next: PolicySet, t: string, a: Audience, v: Visibility)
    requires Represents(merged, os) && JoinsAt(merged, o, next) && t in next && v != Inherit
    ensures next[t].On(a) == v <==> Forces(os + {o}, t, a, v)
  {
    var all := os + {o};
    if t in merged {
      assert merged[t].On(a) == v <==> Forces(os, t, a, v);
    } else {
      assert !Forces(os, t, a, v);
    }
    assert Forces(all, t, a, v) <==> Forces(os, t, a, v) || (o.tool == t && o.On(a) == v) by {
      if Forces(os, t, a, v) {
        var p :| p in os && p.tool == t && p.On(a) == v;
        assert p in all;
      }
      if o.tool == t && o.On(a) == v { assert o in all; }
    }
  }

  lemma JoinRepresents(merged: PolicySet, os: set<Overlay>, o: Overlay, next: PolicySet)
    requires Represents(merged, os) && JoinsAt(merged, o, next)
    ensures Represents(next, os + {o}) && Consistent(os + {o})
  {
    var all := os + {o};
    forall t, a, v | t in next && v != Inherit ensures next[t].On(a) == v <==> Forces(all, t, a, v) {
      JoinForces(merged, os, o, next, t, a, v);
    }
    forall t | t in next ensures exists p :: p in all && p.tool == t {
      if t in merged {
        var p :| p in os && p.tool == t;
        assert p in all;
      } else {
        assert o in all;
      }
    }
    RepresentedIsConsistent(next, all);
  }

  // next lists the sources of merged, and packageId for every tool the overlays os touch.
  ghost predicate Sourced(merged: PolicySet, packageId: string, os: set<Overlay>, next: PolicySet) {
    forall t :: Sources(next, t) == AddSource(Sources(merged, t), packageId, Touches(os, t))
  }

  lemma NothingSourced(merged: PolicySet, packageId: string)
    ensures Sourced(merged, packageId, {}, merged) && Sourced(merged, packageId, Overlays([]), merged)
  {}

  lemma OneSourced(packageId: string, o: Overlay, merged: PolicySet, next: PolicySet)
    requires forall t :: Sources(next, t) == AddSource(Sources(merged, t), packageId, t == o.tool)
    ensures Sourced(merged, packageId, {o}, next)
  {
    forall t ensures Touches({o}, t) <==> t == o.tool {
      if t == o.tool { assert o in {o}; }
    }
  }

  lemma SourcedVia(
      merged: PolicySet, packageId: string, os: set<Overlay>, next: PolicySet, ps: set<Overlay>, last: PolicySet)
    requires Sourced(merged, packageId, os, next) && Sourced(next, packageId, ps, last)
    ensures Sourced(merged, packageId, os + ps, last)
  {
    hide Touches;
    forall t ensures Sources(last, t) == AddSource(Sources(merged, t), packageId, Touches(os + ps, t)) {
      AddedTwice(Sources(merged, t), packageId, os, ps, t);
    }
  }

  method MergeDocument(packageId: string, overlays: seq<Overlay>, base: PolicySet, ghost os: set<Overlay>)
      returns (r: Result<PolicySet, Error>)
    requires Represents(base, os)
    ensures r.Ok? <==> Consistent(os + set o | o in overlays)
    ensures r.Ok? ==> Represents(r.value, os + set o | o in overlays)
    ensures r.Ok? ==> Sourced(base, packageId, (set o | o in overlays), r.value)
  {
    hide Represents, Consistent, Sourced;
    var merged := base;
    ghost var seen, all := os, os + set o | o in overlays;
    RepresentedIsConsistent(base, os);
    NothingSourced(base, packageId);
    assert (set o | o in overlays[..0]) == {};
    for j := 0 to |overlays|
      invariant seen == os + (set o | o in overlays[..j]) && Represents(merged, seen) && seen <= all
      invariant Sourced(base, packageId, (set o | o in overlays[..j]), merged)
    {
      var o := overlays[j];
      assert overlays[..j + 1] == overlays[..j] + [o];
      var next := MergeOverlay(merged, packageId, o, seen);
      seen := seen + {o};
      if next.Err? {
        if Consistent(all) { ConsistentSubset(all, seen); }
        return Err(next.error);
      }
      OneSourced(packageId, o, merged, next.value);
      SourcedVia(base, packageId, (set p | p in overlays[..j]), merged, {o}, next.value);
      ghost var front := overlays[..j + 1];
      assert (set q | q in overlays[..j]) + {o} == (set q | q in front);
      merged := next.value;
    }
    assert overlays[..|overlays|] == overlays;
    RepresentedIsConsistent(merged, seen);
    return Ok(merged);
  }

  // All the documents of one package into the set so far: it succeeds exactly
  // when everything merged so far is consistent.
  method MergeDocuments(packageId: string, docs: seq<Document>, base: PolicySet, ghost os: set<Overlay>)
      returns (r: Result<PolicySet, Error>)
    requires Represents(base, os)
    ensures r.Ok? <==> Consistent(os + Overlays(docs))
    ensures r.Ok? ==> Represents(r.value, os + Overlays(docs))
    ensures r.Ok? ==> Sourced(base, packageId, Overlays(docs), r.value)
  {
    hide Represents, Consistent, Sourced;
    var merged := base;
    ghost var seen, all := os, os + Overlays(docs);
    RepresentedIsConsistent(base, os);
    NothingSourced(base, packageId);
    for i := 0 to |docs|
      invariant seen == os + Overlays(docs[..i]) && Represents(merged, seen) && seen <= all
      invariant Sourced(base, packageId, Overlays(docs[..i]), merged)
    {
      OverlaysStep(docs, i);
      var next := MergeDocument(packageId, docs[i].overlays, merged, seen);
      seen := seen + set o | o in docs[i].overlays;
      if next.Err? {
        if Consistent(all) { ConsistentSubset(all, seen); }
        return Err(next.error);
      }
      SourcedVia(base, packageId, Overlays(docs[..i]), merged, (set o | o in docs[i].overlays), next.value);
      merged := next.value;
    }
    assert docs[..|docs|] == docs;
    RepresentedIsConsistent(merged, seen);
    return Ok(merged);
  }

  // What the model of a channel is shown: the forced value if some overlay
  // forces one, the tool's own otherwise.
  function LlmVisibility(merged: PolicySet, tool: string, a: Audience, base: bool): bool {
    if tool !in merged then base else
    match merged[tool].On(a)
    case Inherit => base
    case ForceVisible => true
    case ForceHidden => false
  }

  // The merge of a consistent set, field by field: a field forces what some overlay forces.
  lemma RepresentsFields(merged: PolicySet, os: set<Overlay>, t: string)
    requires Represents(merged, os)
    ensures t in merged <==> exists o :: o in os && o.tool == t
    ensures t in merged ==>
      && (merged[t].user == ForceVisible <==> exists o :: o in os && o.tool == t && o.user == ForceVisible)
      && (merged[t].user == ForceHidden <==> exists o :: o in os && o.tool == t && o.user == ForceHidden)
      && (merged[t].system == ForceVisible <==> exists o :: o in os && o.tool == t && o.system == ForceVisible)
      && (merged[t].system == ForceHidden <==> exists o :: o in os && o.tool == t && o.system == ForceHidden)
      && (merged[t].internal == ForceVisible <==> exists o :: o in os && o.tool == t && o.internal == ForceVisible)
      && (merged[t].internal == ForceHidden <==> exists o :: o in os && o.tool == t && o.internal == ForceHidden)
  {
    if t in merged {
      ForcedField(merged, os, t, UserLlm);
      ForcedField(merged, os, t, SystemLlm);
      ForcedField(merged, os, t, InternalSystemLlm);
    }
  }

  lemma ForcedField(merged: PolicySet, os: set<Overlay>, t: string, a: Audience)
    requires Represents(merged, os) && t in merged
    ensures merged[t].On(a) == ForceVisible <==> exists o :: o in os && o.tool == t && o.On(a) == ForceVisible
    ensures merged[t].On(a) == ForceHidden <==> exists o :: o in os && o.tool == t && o.On(a) == ForceHidden
  {
    assert merged[t].On(a) == ForceVisible <==> Forces(os, t, a, ForceVisible);
    assert merged[t].On(a) == ForceHidden <==> Forces(os, t, a, ForceHidden);
  }

  // Consistent, field by field.
  lemma ConsistentFields(os: set<Overlay>)
    ensures Consistent(os) <==> forall o, p :: o in os && p in os && o.tool == p.tool ==>
      && !(o.user == ForceVisible && p.user == ForceHidden)
      && !(o.system == ForceVisible && p.system == ForceHidden)
      && !(o.internal == ForceVisible && p.internal == ForceHidden)
  {
    if Consistent(os) {
      forall o, p | o in os && p in os && o.tool == p.tool
        ensures !(o.user == ForceVisible && p.user == ForceHidden)
        ensures !(o.system == ForceVisible && p.system == ForceHidden)
        ensures !(o.internal == ForceVisible && p.internal == ForceHidden)
      {
        assert !Opposed(o, p, UserLlm) && !Opposed(o, p, SystemLlm) && !Opposed(o, p, InternalSystemLlm);
      }
    }
  }

  // Each audience sees its own field: the tool is forced for it, or shown as base says.
  lemma VisibilityByField(merged: PolicySet, tool: string, base: bool)
    requires tool in merged
    ensures LlmVisibility(merged, tool, UserLlm, base) <==>
            merged[tool].user == ForceVisible || (merged[tool].user == Inherit && base)
    ensures LlmVisibility(merged, tool, SystemLlm, base) <==>
            merged[tool].system == ForceVisible || (merged[tool].system == Inherit && base)
    ensures LlmVisibility(merged, tool, InternalSystemLlm, base) <==>
            merged[tool].internal == ForceVisible || (merged[tool].internal == Inherit && base)
  {}

  lemma VisibilityIsForced(merged: PolicySet, os: set<Overlay>, tool: string, a: Audience, base: bool)
    requires Represents(merged, os)
    ensures LlmVisibility(merged, tool, a, base) ==
            if Forces(os, tool, a, ForceVisible) then true
            else if Forces(os, tool, a, ForceHidden) then false
            else base
  {
    if tool in merged {
      assert merged[tool].On(a) == ForceVisible <==> Forces(os, tool, a, ForceVisible);
      assert merged[tool].On(a) == ForceHidden <==> Forces(os, tool, a, ForceHidden);
    }
  }
}
