/**
 * `getCmakeRelationships` from sbom.py: the build-graph edges between the
 * files a CMake build produces and the files they come from, read off the
 * first configuration of the code model.
 */
module Sbom {
  import opened Wrappers
  import opened Strings
  import opened CMake

  /** A relationship `(pathA, kind, pathB)` between two files. */
  datatype Relationship = Relationship(pathA: string, kind: string, pathB: string)

  /** pathA is built from the source pathB. */
  const GeneratedFrom: string := "GENERATED_FROM"
  /** pathA statically links the library pathB. */
  const StaticLink: string := "STATIC_LINK"

  /** The target types whose sources are recorded. */
  predicate IsBuiltFromSources(t: Target) {
    t.targetType == Executable || t.targetType == StaticLibrary || t.targetType == ObjectLibrary
  }

  /** The target types whose library dependencies are recorded. */
  predicate LinksStatically(t: Target) {
    t.targetType == Executable || t.targetType == StaticLibrary
  }

  /** The target types that can be linked in as a dependency. */
  predicate IsStaticLinkable(t: Target) {
    t.targetType == StaticLibrary || t.targetType == ObjectLibrary
  }

  /** `ct` is a target that `dep` links in: same id, a static or object library, exactly one artifact. */
  predicate LinksTo(dep: TargetDependency, ct: ConfigTarget) {
    ct.target.id == dep.id && IsStaticLinkable(ct.target) && |ct.target.artifacts| == 1
  }

  /** The artifact of the first entry of `cts` that `dep` links in, if any. */
  function LinkedArtifact(dep: TargetDependency, cts: seq<ConfigTarget>): (r: Option<string>)
    ensures r.None? <==> forall k :: 0 <= k < |cts| ==> !LinksTo(dep, cts[k])
    ensures r.Some? ==> exists k :: 0 <= k < |cts| && LinksTo(dep, cts[k]) &&
                          r.value == cts[k].target.artifacts[0] &&
                          forall j :: 0 <= j < k ==> !LinksTo(dep, cts[j])
  {
    if cts == [] then None
    else if LinksTo(dep, cts[0]) then Some(cts[0].target.artifacts[0])
    else
      var r := LinkedArtifact(dep, cts[1..]);
      assert forall k :: 1 <= k < |cts| ==> cts[k] == cts[1..][k - 1];
      if r.Some? then
        var k :| 0 <= k < |cts[1..]| && LinksTo(dep, cts[1..][k]) && r.value == cts[1..][k].target.artifacts[0] &&
                 forall j :: 0 <= j < k ==> !LinksTo(dep, cts[1..][j]);
        assert forall j :: 0 <= j < k + 1 ==> !LinksTo(dep, cts[j]) by {
          forall j | 0 <= j < k + 1 ensures !LinksTo(dep, cts[j]) {
            if j > 0 {
              assert cts[j] == cts[1..][j - 1];
            }
          }
        }
        r
      else
        r
  }

  /** The first entry that a dependency links in decides the result. */
  lemma LinkedArtifactFirst(dep: TargetDependency, cts: seq<ConfigTarget>, k: nat)
    requires k < |cts| && LinksTo(dep, cts[k])
    requires forall j :: 0 <= j < k ==> !LinksTo(dep, cts[j])
    ensures LinkedArtifact(dep, cts) == Some(cts[k].target.artifacts[0])
  {
    var r := LinkedArtifact(dep, cts);
    var k' :| 0 <= k' < |cts| && LinksTo(dep, cts[k']) && r.value == cts[k'].target.artifacts[0] &&
              forall j :: 0 <= j < k' ==> !LinksTo(dep, cts[j]);
    assert !(k' < k) && !(k < k');
  }

  /** The edge a target's source contributes. */
  function SourceEdges(artifact: string, sources: seq<TargetSource>): (r: seq<Relationship>)
    ensures |r| == |sources|
    ensures forall j :: 0 <= j < |r| ==> r[j] == Relationship(JoinDot(artifact), GeneratedFrom, sources[j].path)
  {
    if sources == [] then []
    else SourceEdges(artifact, sources[..|sources| - 1]) +
         [Relationship(JoinDot(artifact), GeneratedFrom, sources[|sources| - 1].path)]
  }

  /** The edge, if any, that one dependency contributes. */
  function DepEdges(artifact: string, dep: TargetDependency, cts: seq<ConfigTarget>): seq<Relationship> {
    match LinkedArtifact(dep, cts)
    case None => []
    case Some(depArtifact) => [Relationship(JoinDot(artifact), StaticLink, JoinDot(depArtifact))]
  }

  /** The edges the dependencies contribute, one dependency after another. */
  function LinkEdges(artifact: string, deps: seq<TargetDependency>, cts: seq<ConfigTarget>): (r: seq<Relationship>)
    ensures |r| <= |deps|
    ensures forall k :: 0 <= k < |r| ==> r[k].kind == StaticLink && r[k].pathA == JoinDot(artifact)
  {
    if deps == [] then []
    else LinkEdges(artifact, deps[..|deps| - 1], cts) + DepEdges(artifact, deps[|deps| - 1], cts)
  }

  /**
   * `r` holds, in order, one STATIC_LINK edge from `./artifact` for each
   * dependency at the increasing positions `idx`, to the artifact that
   * dependency links in; those are exactly the dependencies that link in a
   * library.
   */
  ghost predicate LinksInOrder(r: seq<Relationship>, artifact: string, deps: seq<TargetDependency>, cts: seq<ConfigTarget>, idx: seq<nat>) {
    Ascending(idx, |deps|) && |idx| == |r| &&
    (forall j :: 0 <= j < |idx| ==>
       (LinkedArtifact(deps[idx[j]], cts).Some? &&
        r[j] == Relationship(JoinDot(artifact), StaticLink, JoinDot(LinkedArtifact(deps[idx[j]], cts).value)))) &&
    (forall d :: 0 <= d < |deps| && LinkedArtifact(deps[d], cts).Some? ==> d in idx)
  }

  lemma LinksInOrderDrop(r: seq<Relationship>, artifact: string, init: seq<TargetDependency>, last: TargetDependency,
                         cts: seq<ConfigTarget>, idx: seq<nat>)
    requires LinksInOrder(r, artifact, init, cts, idx) && LinkedArtifact(last, cts).None?
    ensures LinksInOrder(r, artifact, init + [last], cts, idx)
  {
    var deps := init + [last];
    assert forall j :: 0 <= j < |idx| ==> deps[idx[j]] == init[idx[j]];
    forall d | 0 <= d < |deps| && LinkedArtifact(deps[d], cts).Some?
      ensures d in idx
    {
      assert d < |init| && init[d] == deps[d];
    }
  }

  lemma LinksInOrderKeep(r: seq<Relationship>, artifact: string, init: seq<TargetDependency>, last: TargetDependency,
                         cts: seq<ConfigTarget>, idx: seq<nat>)
    requires LinksInOrder(r, artifact, init, cts, idx) && LinkedArtifact(last, cts).Some?
    ensures LinksInOrder(r + [Relationship(JoinDot(artifact), StaticLink, JoinDot(LinkedArtifact(last, cts).value))],
                         artifact, init + [last], cts, idx + [|init|])
  {
    var r' := r + [Relationship(JoinDot(artifact), StaticLink, JoinDot(LinkedArtifact(last, cts).value))];
    var deps := init + [last];
    var idx' := idx + [|init|];
    AscendingSnoc(idx, |init|);
    forall j | 0 <= j < |idx'|
      ensures LinkedArtifact(deps[idx'[j]], cts).Some? &&
              r'[j] == Relationship(JoinDot(artifact), StaticLink, JoinDot(LinkedArtifact(deps[idx'[j]], cts).value))
    {
      if j < |idx| {
        assert r'[j] == r[j] && idx'[j] == idx[j] && deps[idx[j]] == init[idx[j]];
      }
    }
    forall d | 0 <= d < |deps| && LinkedArtifact(deps[d], cts).Some?
      ensures d in idx'
    {
      if d < |init| {
        assert init[d] == deps[d];
        assert d in idx;
      }
    }
  }

  /**
   * The dependency edges are exactly one per dependency that links in a
   * library, in dependency order, each to that library's artifact.
   */
  lemma {:induction false} LinkEdgesInOrder(artifact: string, deps: seq<TargetDependency>, cts: seq<ConfigTarget>) returns (idx: seq<nat>)
    ensures LinksInOrder(LinkEdges(artifact, deps, cts), artifact, deps, cts, idx)
  {
    if deps == [] {
      idx := [];
    } else {
      var init := deps[..|deps| - 1];
      var last := deps[|deps| - 1];
      assert deps == init + [last];
      var idx0 := LinkEdgesInOrder(artifact, init, cts);
      if LinkedArtifact(last, cts).None? {
        LinksInOrderDrop(LinkEdges(artifact, init, cts), artifact, init, last, cts, idx0);
        idx := idx0;
      } else {
        LinksInOrderKeep(LinkEdges(artifact, init, cts), artifact, init, last, cts, idx0);
        idx := idx0 + [|init|];
      }
    }
  }

  /** Every dependency that links in a library gives its edge. */
  lemma {:induction false} LinkEdgesComplete(artifact: string, deps: seq<TargetDependency>, cts: seq<ConfigTarget>, d: nat)
    requires d < |deps| && LinkedArtifact(deps[d], cts).Some?
    ensures Relationship(JoinDot(artifact), StaticLink, JoinDot(LinkedArtifact(deps[d], cts).value)) in LinkEdges(artifact, deps, cts)
  {
    var init := deps[..|deps| - 1];
    if d < |init| {
      assert init[d] == deps[d];
      LinkEdgesComplete(artifact, init, cts, d);
    }
  }

  /** The edges one target contributes. */
  function TargetEdges(t: Target, cts: seq<ConfigTarget>): seq<Relationship> {
    if !IsBuiltFromSources(t) || |t.artifacts| != 1 then []
    else SourceEdges(t.artifacts[0], t.sources) +
         (if LinksStatically(t) then LinkEdges(t.artifacts[0], t.dependencies, cts) else [])
  }

  /** The edges of `targets`, target after target; dependencies are looked up in `cts`. */
  function EdgesOf(targets: seq<ConfigTarget>, cts: seq<ConfigTarget>): seq<Relationship> {
    if targets == [] then []
    else EdgesOf(targets[..|targets| - 1], cts) + TargetEdges(targets[|targets| - 1].target, cts)
  }

  /** What `getCmakeRelationships` returns: the edges of the first configuration's targets. */
  function CmakeRelationships(cm: Codemodel): seq<Relationship>
    requires |cm.configurations| >= 1
  {
    var cts := cm.configurations[0].configTargets;
    EdgesOf(cts, cts)
  }

  /** Walks the targets, their sources and their dependencies, appending edges. */
  method GetCmakeRelationships(cm: Codemodel) returns (rlns: seq<Relationship>)
    requires |cm.configurations| >= 1
    ensures rlns == CmakeRelationships(cm)
  {
    rlns := [];
    var cts := cm.configurations[0].configTargets;
    for i := 0 to |cts|
      invariant rlns == EdgesOf(cts[..i], cts)
    {
      EdgesOfSnoc(cts, cts, i);
      var edges := TargetRelationships(cts[i].target, cts);
      rlns := rlns + edges;
    }
    assert cts[..|cts|] == cts;
  }

  /**
   * The body of the loop over targets in `getCmakeRelationships`: the edges
   * one target contributes (the source's `continue` for a target without
   * exactly one artifact is the early return of no edges).
   */
  method TargetRelationships(target: Target, cts: seq<ConfigTarget>) returns (edges: seq<Relationship>)
    ensures edges == TargetEdges(target, cts)
  {
    edges := [];
    if IsBuiltFromSources(target) {
      if |target.artifacts| != 1 {
        return;
      }
      var artifactPath := target.artifacts[0];
      for j := 0 to |target.sources|
        invariant edges == SourceEdges(artifactPath, target.sources[..j])
      {
        SourceEdgesSnoc(artifactPath, target.sources, j);
        edges := edges + [Relationship(JoinDot(artifactPath), GeneratedFrom, target.sources[j].path)];
      }
      assert target.sources[..|target.sources|] == target.sources;
      if LinksStatically(target) {
        ghost var sourceEdges := edges;
        for d := 0 to |target.dependencies|
          invariant edges == sourceEdges + LinkEdges(artifactPath, target.dependencies[..d], cts)
        {
          LinkEdgesSnoc(artifactPath, target.dependencies, cts, d);
          var depEdges := LinkDependency(artifactPath, target.dependencies[d], cts);
          Regroup(sourceEdges, LinkEdges(artifactPath, target.dependencies[..d], cts), depEdges);
          edges := edges + depEdges;
        }
        assert target.dependencies[..|target.dependencies|] == target.dependencies;
      }
    }
  }

  lemma EdgesOfSnoc(targets: seq<ConfigTarget>, cts: seq<ConfigTarget>, i: nat)
    requires i < |targets|
    ensures EdgesOf(targets[..i + 1], cts) == EdgesOf(targets[..i], cts) + TargetEdges(targets[i].target, cts)
  {
    assert targets[..i + 1][..i] == targets[..i];
  }

  lemma SourceEdgesSnoc(artifact: string, sources: seq<TargetSource>, j: nat)
    requires j < |sources|
    ensures SourceEdges(artifact, sources[..j + 1]) ==
            SourceEdges(artifact, sources[..j]) + [Relationship(JoinDot(artifact), GeneratedFrom, sources[j].path)]
  {
    assert sources[..j + 1][..j] == sources[..j];
  }

  lemma LinkEdgesSnoc(artifact: string, deps: seq<TargetDependency>, cts: seq<ConfigTarget>, d: nat)
    requires d < |deps|
    ensures LinkEdges(artifact, deps[..d + 1], cts) == LinkEdges(artifact, deps[..d], cts) + DepEdges(artifact, deps[d], cts)
  {
    assert deps[..d + 1][..d] == deps[..d];
  }

  lemma Regroup(a: seq<Relationship>, b: seq<Relationship>, c: seq<Relationship>)
    ensures a + b + c == a + (b + c)
  {
  }

  /**
   * The innermost loop of `getCmakeRelationships`: searches the
   * configuration for the target a dependency names, skipping entries with
   * another id, entries that are not static or object libraries and
   * libraries without exactly one artifact, and stops at the first match.
   */
  method LinkDependency(artifactPath: string, dep: TargetDependency, cts: seq<ConfigTarget>) returns (edges: seq<Relationship>)
    ensures edges == DepEdges(artifactPath, dep, cts)
  {
    edges := [];
    for k := 0 to |cts|
      invariant edges == []
      invariant forall m :: 0 <= m < k ==> !LinksTo(dep, cts[m])
    {
      var depTarget := cts[k].target;
      if depTarget.id != dep.id {
        continue;
      }
      if IsStaticLinkable(depTarget) {
        if |depTarget.artifacts| != 1 {
          continue;
        }
        var depArtifactPath := depTarget.artifacts[0];
        LinkedArtifactFirst(dep, cts, k);
        edges := [Relationship(JoinDot(artifactPath), StaticLink, JoinDot(depArtifactPath))];
        return;
      }
    }
  }

  /* ------------------------------------------------------------------ */
  /* Properties                                                          */
  /* ------------------------------------------------------------------ */

  /** Every edge in the result is an edge of one of the targets. */
  lemma {:induction false} EdgesOfSound(targets: seq<ConfigTarget>, cts: seq<ConfigTarget>, e: Relationship)
    requires e in EdgesOf(targets, cts)
    ensures exists i :: 0 <= i < |targets| && e in TargetEdges(targets[i].target, cts)
  {
    var n := |targets| - 1;
    var init := targets[..n];
    if e !in TargetEdges(targets[n].target, cts) {
      EdgesOfSound(init, cts, e);
      var i :| 0 <= i < |init| && e in TargetEdges(init[i].target, cts);
      assert init[i] == targets[i];
    }
  }

  /** Every edge of every target is in the result. */
  lemma {:induction false} EdgesOfComplete(targets: seq<ConfigTarget>, cts: seq<ConfigTarget>, i: nat, e: Relationship)
    requires i < |targets| && e in TargetEdges(targets[i].target, cts)
    ensures e in EdgesOf(targets, cts)
  {
    var n := |targets| - 1;
    var init := targets[..n];
    assert EdgesOf(targets, cts) == EdgesOf(init, cts) + TargetEdges(targets[n].target, cts);
    if i < n {
      assert init[i] == targets[i];
      EdgesOfComplete(init, cts, i, e);
    }
  }

  /** Only the first configuration is consulted. */
  lemma OnlyFirstConfiguration(cm1: Codemodel, cm2: Codemodel)
    requires |cm1.configurations| >= 1 && |cm2.configurations| >= 1
    requires cm1.configurations[0] == cm2.configurations[0]
    ensures CmakeRelationships(cm1) == CmakeRelationships(cm2)
  {
  }

  /**
   * A target contributes its GENERATED_FROM edges first, one per source in
   * source order, then only STATIC_LINK edges, at most one per dependency;
   * an object library contributes no STATIC_LINK edge.
   */
  lemma TargetEdgesShape(t: Target, cts: seq<ConfigTarget>)
    requires IsBuiltFromSources(t) && |t.artifacts| == 1
    ensures var r := TargetEdges(t, cts);
            |t.sources| <= |r| <= |t.sources| + |t.dependencies| &&
            (forall j :: 0 <= j < |t.sources| ==> r[j] == Relationship(JoinDot(t.artifacts[0]), GeneratedFrom, t.sources[j].path)) &&
            (forall j :: |t.sources| <= j < |r| ==> r[j].kind == StaticLink && r[j].pathA == JoinDot(t.artifacts[0])) &&
            (t.targetType == ObjectLibrary ==> |r| == |t.sources|)
  {
    var a := t.artifacts[0];
    var s := SourceEdges(a, t.sources);
    if LinksStatically(t) {
      var l := LinkEdges(a, t.dependencies, cts);
      assert TargetEdges(t, cts) == s + l;
      assert forall j :: |t.sources| <= j < |s + l| ==> (s + l)[j] == l[j - |s|];
    } else {
      assert TargetEdges(t, cts) == s;
    }
  }

  /** A target that is not an executable, static or object library contributes nothing. */
  lemma OtherTargetsContributeNothing(t: Target, cts: seq<ConfigTarget>)
    requires !IsBuiltFromSources(t) || |t.artifacts| != 1
    ensures TargetEdges(t, cts) == []
  {
  }

  /** A dependency whose id names no target of the configuration gives no edge. */
  lemma UnknownDependency(artifact: string, dep: TargetDependency, cts: seq<ConfigTarget>)
    requires forall k :: 0 <= k < |cts| ==> cts[k].target.id != dep.id
    ensures DepEdges(artifact, dep, cts) == []
  {
  }

  /** Every edge is one of the two kinds. */
  lemma EdgeKinds(cm: Codemodel, e: Relationship)
    requires |cm.configurations| >= 1
    requires e in CmakeRelationships(cm)
    ensures e.kind == GeneratedFrom || e.kind == StaticLink
  {
    var cts := cm.configurations[0].configTargets;
    EdgesOfSound(cts, cts, e);
    var i :| 0 <= i < |cts| && e in TargetEdges(cts[i].target, cts);
    var t := cts[i].target;
    TargetEdgesShape(t, cts);
  }

  /**
   * Every GENERATED_FROM edge joins the single artifact of an executable,
   * static or object library of the first configuration to one of that
   * target's sources.
   */
  lemma GeneratedFromSound(cm: Codemodel, e: Relationship)
    requires |cm.configurations| >= 1
    requires e in CmakeRelationships(cm) && e.kind == GeneratedFrom
    ensures var cts := cm.configurations[0].configTargets;
            exists i, j :: 0 <= i < |cts| && IsBuiltFromSources(cts[i].target) && |cts[i].target.artifacts| == 1 &&
                           0 <= j < |cts[i].target.sources| &&
                           e == Relationship(JoinDot(cts[i].target.artifacts[0]), GeneratedFrom, cts[i].target.sources[j].path)
  {
    var cts := cm.configurations[0].configTargets;
    EdgesOfSound(cts, cts, e);
    var i :| 0 <= i < |cts| && e in TargetEdges(cts[i].target, cts);
    var t := cts[i].target;
    TargetEdgesShape(t, cts);
    var r := TargetEdges(t, cts);
    var j :| 0 <= j < |r| && r[j] == e;
    assert j < |t.sources|;
  }

  /** Every source of a qualifying target gets its GENERATED_FROM edge. */
  lemma GeneratedFromComplete(cm: Codemodel, i: nat, j: nat)
    requires |cm.configurations| >= 1
    requires var cts := cm.configurations[0].configTargets;
             i < |cts| && IsBuiltFromSources(cts[i].target) && |cts[i].target.artifacts| == 1 &&
             j < |cts[i].target.sources|
    ensures var t := cm.configurations[0].configTargets[i].target;
            Relationship(JoinDot(t.artifacts[0]), GeneratedFrom, t.sources[j].path) in CmakeRelationships(cm)
  {
    var cts := cm.configurations[0].configTargets;
    var t := cts[i].target;
    TargetEdgesShape(t, cts);
    var e := Relationship(JoinDot(t.artifacts[0]), GeneratedFrom, t.sources[j].path);
    assert TargetEdges(t, cts)[j] == e;
    EdgesOfComplete(cts, cts, i, e);
  }

  /** A dependency edge names a library the dependency links in. */
  lemma {:induction false} LinkEdgesSound(artifact: string, deps: seq<TargetDependency>, cts: seq<ConfigTarget>, e: Relationship)
    requires e in LinkEdges(artifact, deps, cts)
    ensures exists d, k :: 0 <= d < |deps| && 0 <= k < |cts| && LinksTo(deps[d], cts[k]) &&
                           e == Relationship(JoinDot(artifact), StaticLink, JoinDot(cts[k].target.artifacts[0]))
  {
    var init := deps[..|deps| - 1];
    var last := deps[|deps| - 1];
    if e in LinkEdges(artifact, init, cts) {
      LinkEdgesSound(artifact, init, cts, e);
      var d, k :| 0 <= d < |init| && 0 <= k < |cts| && LinksTo(init[d], cts[k]) &&
                  e == Relationship(JoinDot(artifact), StaticLink, JoinDot(cts[k].target.artifacts[0]));
      assert init[d] == deps[d];
    } else {
      assert e in DepEdges(artifact, last, cts);
      var r := LinkedArtifact(last, cts);
      var k :| 0 <= k < |cts| && LinksTo(last, cts[k]) && r.value == cts[k].target.artifacts[0] &&
               forall j :: 0 <= j < k ==> !LinksTo(last, cts[j]);
      assert LinksTo(deps[|deps| - 1], cts[k]);
    }
  }

  /** A STATIC_LINK edge of one target comes from one of its dependencies. */
  lemma TargetStaticLinkSound(t: Target, cts: seq<ConfigTarget>, e: Relationship)
    requires e in TargetEdges(t, cts) && e.kind == StaticLink
    ensures LinksStatically(t) && |t.artifacts| == 1
    ensures exists d, k :: 0 <= d < |t.dependencies| && 0 <= k < |cts| && LinksTo(t.dependencies[d], cts[k]) &&
                           e == Relationship(JoinDot(t.artifacts[0]), StaticLink, JoinDot(cts[k].target.artifacts[0]))
  {
    var s := SourceEdges(t.artifacts[0], t.sources);
    assert forall x :: x in s ==> x.kind == GeneratedFrom;
    assert LinksStatically(t);
    LinkEdgesSound(t.artifacts[0], t.dependencies, cts, e);
  }

  /**
   * Every STATIC_LINK edge goes from the single artifact of an executable or
   * static library to the single artifact of a static or object library with
   * the id of one of its dependencies.
   */
  lemma StaticLinkSound(cm: Codemodel, e: Relationship)
    requires |cm.configurations| >= 1
    requires e in CmakeRelationships(cm) && e.kind == StaticLink
    ensures var cts := cm.configurations[0].configTargets;
            exists i, d, k :: 0 <= i < |cts| && LinksStatically(cts[i].target) && |cts[i].target.artifacts| == 1 &&
                              0 <= d < |cts[i].target.dependencies| && 0 <= k < |cts| &&
                              LinksTo(cts[i].target.dependencies[d], cts[k]) &&
                              e == Relationship(JoinDot(cts[i].target.artifacts[0]), StaticLink, JoinDot(cts[k].target.artifacts[0]))
  {
    var cts := cm.configurations[0].configTargets;
    EdgesOfSound(cts, cts, e);
    var i :| 0 <= i < |cts| && e in TargetEdges(cts[i].target, cts);
    TargetStaticLinkSound(cts[i].target, cts, e);
  }

  /**
   * Every dependency of an executable or static library of the first
   * configuration that links in a library gives a STATIC_LINK edge from the
   * target's single artifact to that library's artifact.
   */
  lemma StaticLinkComplete(cm: Codemodel, i: nat, d: nat)
    requires |cm.configurations| >= 1
    requires var cts := cm.configurations[0].configTargets;
             i < |cts| && LinksStatically(cts[i].target) && |cts[i].target.artifacts| == 1 &&
             d < |cts[i].target.dependencies| && LinkedArtifact(cts[i].target.dependencies[d], cts).Some?
    ensures var cts := cm.configurations[0].configTargets;
            var t := cts[i].target;
            Relationship(JoinDot(t.artifacts[0]), StaticLink, JoinDot(LinkedArtifact(t.dependencies[d], cts).value))
              in CmakeRelationships(cm)
  {
    var cts := cm.configurations[0].configTargets;
    var t := cts[i].target;
    var e := Relationship(JoinDot(t.artifacts[0]), StaticLink, JoinDot(LinkedArtifact(t.dependencies[d], cts).value));
    LinkEdgesComplete(t.artifacts[0], t.dependencies, cts, d);
    assert TargetEdges(t, cts) == SourceEdges(t.artifacts[0], t.sources) + LinkEdges(t.artifacts[0], t.dependencies, cts);
    EdgesOfComplete(cts, cts, i, e);
  }
}
