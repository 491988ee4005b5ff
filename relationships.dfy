/**
 * spdx/relationships.py: turning build-graph edges between file paths into
 * SPDX relationship lines between file identifiers, across two packages
 * (the sources and the build output), appended to the build document.
 *
 * `os.path.relpath` depends on the working directory and on normalising
 * paths, so it is a parameter: any function from (path, start) to a path.
 */
module Relationships {
  import opened Wrappers
  import opened Strings
  import opened Builder
  import opened Document
  import opened Sbom

  /** A path names a build file when it starts with "./" or ".\". */
  predicate IsBuildPath(filepath: string) {
    StartsWith(filepath, "./") || StartsWith(filepath, ".\\")
  }

  /** A relative path that leaves the directory it is relative to. */
  predicate EscapesRoot(checkPath: string) {
    StartsWith(checkPath, "../") || StartsWith(checkPath, "..\\")
  }

  /** The identifier of the first file whose name equals `name`. */
  function FindFileID(files: seq<BuilderFile>, name: string): (r: Option<string>)
    ensures r.None? <==> forall k :: 0 <= k < |files| ==> files[k].name != name
    ensures r.Some? ==> exists k :: 0 <= k < |files| && files[k].name == name && r.value == files[k].spdxID &&
                          forall j :: 0 <= j < k ==> files[j].name != name
  {
    if files == [] then None
    else if files[0].name == name then Some(files[0].spdxID)
    else
      var r := FindFileID(files[1..], name);
      assert forall k :: 1 <= k < |files| ==> files[k] == files[1..][k - 1];
      if r.Some? then
        var k :| 0 <= k < |files[1..]| && files[1..][k].name == name && r.value == files[1..][k].spdxID &&
                 forall j :: 0 <= j < k ==> files[1..][j].name != name;
        assert forall j :: 0 <= j < k + 1 ==> files[j].name != name by {
          forall j | 0 <= j < k + 1 ensures files[j].name != name {
            if j > 0 {
              assert files[j] == files[1..][j - 1];
            }
          }
        }
        r
      else
        r
  }

  /**
   * `resolveRelationshipID`: whether `filepath` is a build file, and the
   * identifier of the file it names. A build path is looked up as it is in
   * the build package; a source path that leaves the source root resolves
   * to nothing whatever the packages hold; any other source path is looked
   * up, relative to the source root and with "./" in front, in the source
   * package.
   */
  function ResolveRelationshipID(srcRootDir: string, srcPkg: BuilderPackage, buildPkg: BuilderPackage,
                                 filepath: string, relpath: (string, string) -> string): (r: (bool, Option<string>))
    ensures r.0 <==> IsBuildPath(filepath)
    ensures IsBuildPath(filepath) ==> r.1 == FindFileID(buildPkg.files, filepath)
    ensures !IsBuildPath(filepath) && EscapesRoot(relpath(filepath, srcRootDir)) ==> r.1 == None
    ensures !IsBuildPath(filepath) && !EscapesRoot(relpath(filepath, srcRootDir)) ==>
              r.1 == FindFileID(srcPkg.files, JoinDot(relpath(filepath, srcRootDir)))
  {
    var isBuild := IsBuildPath(filepath);
    if isBuild then (isBuild, FindFileID(buildPkg.files, filepath))
    else
      var checkPath := relpath(filepath, srcRootDir);
      if EscapesRoot(checkPath) then (isBuild, None)
      else (isBuild, FindFileID(srcPkg.files, JoinDot(checkPath)))
  }

  /** A source path outside the source root does not depend on either package's files. */
  lemma EscapingPathIgnoresFiles(srcRootDir: string, srcPkg1: BuilderPackage, srcPkg2: BuilderPackage,
                                 buildPkg1: BuilderPackage, buildPkg2: BuilderPackage,
                                 filepath: string, relpath: (string, string) -> string)
    requires !IsBuildPath(filepath) && EscapesRoot(relpath(filepath, srcRootDir))
    ensures ResolveRelationshipID(srcRootDir, srcPkg1, buildPkg1, filepath, relpath) ==
            ResolveRelationshipID(srcRootDir, srcPkg2, buildPkg2, filepath, relpath) == (false, None)
  {
  }

  /** Python's truth value of a resolved identifier: None and "" are false. */
  predicate Truthy(id: Option<string>) {
    id.Some? && id.value != ""
  }

  const SourcesRef: string := "DocumentRef-sources:"

  /** Source files live in another document, so their identifiers are prefixed with a reference to it. */
  function Qualified(isBuild: bool, id: string): string {
    if isBuild then id else SourcesRef + id
  }

  /** The line written for one edge: none unless both ends resolve. */
  function EdgeLines(srcRootDir: string, srcPkg: BuilderPackage, buildPkg: BuilderPackage,
                     rln: Relationship, relpath: (string, string) -> string): (r: seq<Line>)
    ensures |r| <= 1
    ensures AllRelationshipTags(r)
  {
    var (isBuildA, idA) := ResolveRelationshipID(srcRootDir, srcPkg, buildPkg, rln.pathA, relpath);
    var (isBuildB, idB) := ResolveRelationshipID(srcRootDir, srcPkg, buildPkg, rln.pathB, relpath);
    if !Truthy(idA) || !Truthy(idB) then []
    else [Tag(Document.Relationship, Qualified(isBuildA, idA.value) + " " + rln.kind + " " + Qualified(isBuildB, idB.value))]
  }

  /** The lines written for the edges, in edge order. */
  function RelationshipLines(srcRootDir: string, srcPkg: BuilderPackage, buildPkg: BuilderPackage,
                             rlns: seq<Relationship>, relpath: (string, string) -> string): (r: seq<Line>)
    ensures |r| <= |rlns|
  {
    if rlns == [] then []
    else RelationshipLines(srcRootDir, srcPkg, buildPkg, rlns[..|rlns| - 1], relpath) +
         EdgeLines(srcRootDir, srcPkg, buildPkg, rlns[|rlns| - 1], relpath)
  }

  /** `outputSPDXRelationships`: appends one line per resolvable edge to the document `doc`. */
  method OutputSPDXRelationships(doc: seq<Line>, srcRootDir: string, srcPkg: BuilderPackage, buildPkg: BuilderPackage,
                                 rlns: seq<Relationship>, relpath: (string, string) -> string)
    returns (out: seq<Line>)
    ensures out == doc + RelationshipLines(srcRootDir, srcPkg, buildPkg, rlns, relpath)
  {
    out := doc;
    for i := 0 to |rlns|
      invariant out == doc + RelationshipLines(srcRootDir, srcPkg, buildPkg, rlns[..i], relpath)
    {
      var line := WriteEdge(srcRootDir, srcPkg, buildPkg, rlns[i], relpath);
      RelationshipLinesSnoc(srcRootDir, srcPkg, buildPkg, rlns, relpath, i);
      out := out + line;
    }
    assert rlns[..|rlns|] == rlns;
  }

  /** The body of the loop over the edges: the line, if any, written for one edge. */
  method WriteEdge(srcRootDir: string, srcPkg: BuilderPackage, buildPkg: BuilderPackage,
                   rln: Relationship, relpath: (string, string) -> string)
    returns (line: seq<Line>)
    ensures line == EdgeLines(srcRootDir, srcPkg, buildPkg, rln, relpath)
  {
    var (isBuildA, rlnIDA) := ResolveRelationshipID(srcRootDir, srcPkg, buildPkg, rln.pathA, relpath);
    var (isBuildB, rlnIDB) := ResolveRelationshipID(srcRootDir, srcPkg, buildPkg, rln.pathB, relpath);
    if !Truthy(rlnIDA) || !Truthy(rlnIDB) {
      return [];
    }
    var idA := rlnIDA.value;
    var idB := rlnIDB.value;
    if !isBuildA {
      idA := SourcesRef + idA;
    }
    if !isBuildB {
      idB := SourcesRef + idB;
    }
    line := [Tag(Document.Relationship, idA + " " + rln.kind + " " + idB)];
  }

  lemma RelationshipLinesSnoc(srcRootDir: string, srcPkg: BuilderPackage, buildPkg: BuilderPackage,
                              rlns: seq<Relationship>, relpath: (string, string) -> string, i: nat)
    requires i < |rlns|
    ensures RelationshipLines(srcRootDir, srcPkg, buildPkg, rlns[..i + 1], relpath) ==
            RelationshipLines(srcRootDir, srcPkg, buildPkg, rlns[..i], relpath) +
            EdgeLines(srcRootDir, srcPkg, buildPkg, rlns[i], relpath)
  {
    assert rlns[..i + 1][..i] == rlns[..i];
  }

  /* ------------------------------------------------------------------ */
  /* Properties                                                          */
  /* ------------------------------------------------------------------ */

  /**
   * An edge gives a line exactly when both ends resolve to a non-empty
   * identifier; the line relates the two identifiers, prefixed on the
   * source side only, by the edge's kind unchanged.
   */
  lemma EdgeLine(srcRootDir: string, srcPkg: BuilderPackage, buildPkg: BuilderPackage,
                 rln: Relationship, relpath: (string, string) -> string)
    ensures var a := ResolveRelationshipID(srcRootDir, srcPkg, buildPkg, rln.pathA, relpath);
            var b := ResolveRelationshipID(srcRootDir, srcPkg, buildPkg, rln.pathB, relpath);
            var r := EdgeLines(srcRootDir, srcPkg, buildPkg, rln, relpath);
            (r != [] <==> Truthy(a.1) && Truthy(b.1)) &&
            (r != [] ==> r == [Tag(Document.Relationship,
                                  (if IsBuildPath(rln.pathA) then a.1.value else SourcesRef + a.1.value) + " " + rln.kind + " " +
                                  (if IsBuildPath(rln.pathB) then b.1.value else SourcesRef + b.1.value))])
  {
  }

  /** Every line of `lines` is a relationship line. */
  ghost predicate AllRelationshipTags(lines: seq<Line>) {
    forall k :: 0 <= k < |lines| ==> lines[k].Tag? && lines[k].key == Document.Relationship
  }

  /** Every appended line is a relationship line. */
  lemma {:induction false} RelationshipLinesTagged(srcRootDir: string, srcPkg: BuilderPackage, buildPkg: BuilderPackage,
                                                   rlns: seq<Relationship>, relpath: (string, string) -> string)
    ensures AllRelationshipTags(RelationshipLines(srcRootDir, srcPkg, buildPkg, rlns, relpath))
  {
    if rlns != [] {
      var init := RelationshipLines(srcRootDir, srcPkg, buildPkg, rlns[..|rlns| - 1], relpath);
      var last := EdgeLines(srcRootDir, srcPkg, buildPkg, rlns[|rlns| - 1], relpath);
      RelationshipLinesTagged(srcRootDir, srcPkg, buildPkg, rlns[..|rlns| - 1], relpath);
      TagsAppend(init, last);
    }
  }

  lemma TagsAppend(a: seq<Line>, b: seq<Line>)
    requires AllRelationshipTags(a) && AllRelationshipTags(b)
    ensures AllRelationshipTags(a + b)
  {
    forall k | 0 <= k < |a + b|
      ensures (a + b)[k].Tag? && (a + b)[k].key == Document.Relationship
    {
      if k >= |a| {
        assert (a + b)[k] == b[k - |a|];
      }
    }
  }

  /** An edge between two build files that are both in the build package gives its line. */
  lemma BuildEdgeWritten(srcRootDir: string, srcPkg: BuilderPackage, buildPkg: BuilderPackage,
                         rln: Relationship, relpath: (string, string) -> string, i: nat, j: nat)
    requires IsBuildPath(rln.pathA) && IsBuildPath(rln.pathB)
    requires i < |buildPkg.files| && buildPkg.files[i].name == rln.pathA && buildPkg.files[i].spdxID != ""
    requires forall k :: 0 <= k < i ==> buildPkg.files[k].name != rln.pathA
    requires j < |buildPkg.files| && buildPkg.files[j].name == rln.pathB && buildPkg.files[j].spdxID != ""
    requires forall k :: 0 <= k < j ==> buildPkg.files[k].name != rln.pathB
    ensures EdgeLines(srcRootDir, srcPkg, buildPkg, rln, relpath) ==
            [Tag(Document.Relationship, buildPkg.files[i].spdxID + " " + rln.kind + " " + buildPkg.files[j].spdxID)]
  {
    FindFirst(buildPkg.files, rln.pathA, i);
    FindFirst(buildPkg.files, rln.pathB, j);
  }

  /** The first file with the name decides the identifier. */
  lemma FindFirst(files: seq<BuilderFile>, name: string, i: nat)
    requires i < |files| && files[i].name == name
    requires forall k :: 0 <= k < i ==> files[k].name != name
    ensures FindFileID(files, name) == Some(files[i].spdxID)
  {
    var r := FindFileID(files, name);
    var k :| 0 <= k < |files| && files[k].name == name && r.value == files[k].spdxID &&
             forall j :: 0 <= j < k ==> files[j].name != name;
    assert !(k < i) && !(i < k);
  }

  /** Appending never changes what the document already held, as lines or as text. */
  lemma AppendOnly(doc: seq<Line>, srcRootDir: string, srcPkg: BuilderPackage, buildPkg: BuilderPackage,
                   rlns: seq<Relationship>, relpath: (string, string) -> string)
    ensures var out := doc + RelationshipLines(srcRootDir, srcPkg, buildPkg, rlns, relpath);
            out[..|doc|] == doc &&
            Text(out) == Text(doc) + Text(RelationshipLines(srcRootDir, srcPkg, buildPkg, rlns, relpath))
  {
    TextAppend(doc, RelationshipLines(srcRootDir, srcPkg, buildPkg, rlns, relpath));
  }
}
