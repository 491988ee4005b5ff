/**
 * The parts of CMake's file-based API code model that the relationship
 * synthesis reads (cmakefileapi.py), as values: a code model holds
 * configurations, a configuration holds its targets, and a target lists
 * its artifacts, its dependencies on other targets and its sources.
 */
module CMake {
  import opened Strings

  /** The kinds of target CMake reports. */
  datatype TargetType =
    | Unknown | Executable | StaticLibrary | SharedLibrary | ModuleLibrary | ObjectLibrary | Utility

  /** A dependency of a target on another target, by the other target's id. */
  datatype TargetDependency = TargetDependency(id: string)

  /** A source file of a target; `isGenerated` marks one produced during the build. */
  datatype TargetSource = TargetSource(path: string, isGenerated: bool)

  /**
   * A build target: its artifacts are the paths of the files it produces.
   * As the loader builds it, `targetType` is `ParseTargetType` of the JSON
   * "type" string and `artifacts` is `NonEmptyArtifacts` of the JSON
   * artifact paths.
   */
  datatype Target = Target(
    name: string,
    id: string,
    targetType: TargetType,
    artifacts: seq<string>,
    dependencies: seq<TargetDependency>,
    sources: seq<TargetSource>)

  /** A configuration's entry for one target, with the target's details loaded. */
  datatype ConfigTarget = ConfigTarget(name: string, id: string, target: Target)

  /** One build configuration (Debug, Release, ...). */
  datatype Config = Config(name: string, configTargets: seq<ConfigTarget>)

  /** The code model of a build tree. */
  datatype Codemodel = Codemodel(pathsSource: string, pathsBuild: string, configurations: seq<Config>)

  /** How a target type is spelled in the API's JSON replies. */
  function TypeName(t: TargetType): string {
    match t
    case Unknown => "UNKNOWN"
    case Executable => "EXECUTABLE"
    case StaticLibrary => "STATIC_LIBRARY"
    case SharedLibrary => "SHARED_LIBRARY"
    case ModuleLibrary => "MODULE_LIBRARY"
    case ObjectLibrary => "OBJECT_LIBRARY"
    case Utility => "UTILITY"
  }

  /** `parseTargetType`: the six known spellings map to their type, anything else is UNKNOWN. */
  function ParseTargetType(s: string): (t: TargetType)
    ensures t != Unknown ==> TypeName(t) == s
    ensures t == Unknown ==> forall u :: u != Unknown ==> TypeName(u) != s
  {
    if s == "EXECUTABLE" then Executable
    else if s == "STATIC_LIBRARY" then StaticLibrary
    else if s == "SHARED_LIBRARY" then SharedLibrary
    else if s == "MODULE_LIBRARY" then ModuleLibrary
    else if s == "OBJECT_LIBRARY" then ObjectLibrary
    else if s == "UTILITY" then Utility
    else Unknown
  }

  /** Parsing a type's own spelling gives that type back. */
  lemma ParseTypeName(t: TargetType)
    ensures ParseTargetType(TypeName(t)) == t
  {
  }

  /** The artifact paths the loader keeps: the non-empty ones, in order. */
  function NonEmptyArtifacts(paths: seq<string>): (r: seq<string>)
    ensures |r| <= |paths|
    ensures forall a :: a in r <==> a in paths && a != ""
  {
    if paths == [] then []
    else
      var init := paths[..|paths| - 1];
      var last := paths[|paths| - 1];
      assert paths == init + [last];
      NonEmptyArtifacts(init) + (if last != "" then [last] else [])
  }

  /**
   * Every non-empty path is kept once and in its place: the result reads
   * `paths` at the increasing positions `idx`, which are exactly the
   * positions of the non-empty paths.
   */
  lemma {:induction false} NonEmptyArtifactsInOrder(paths: seq<string>) returns (idx: seq<nat>)
    ensures Selects(NonEmptyArtifacts(paths), paths, p => p != "", p => p, idx)
  {
    if paths == [] {
      idx := [];
    } else {
      var init := paths[..|paths| - 1];
      var last := paths[|paths| - 1];
      assert paths == init + [last];
      var idx0 := NonEmptyArtifactsInOrder(init);
      if last == "" {
        SelectsDrop(NonEmptyArtifacts(init), init, last, p => p != "", p => p, idx0);
        idx := idx0;
      } else {
        SelectsKeep(NonEmptyArtifacts(init), init, last, p => p != "", p => p, idx0);
        idx := idx0 + [|init|];
      }
    }
  }

  /** A list without empty paths is kept whole. */
  lemma {:induction false} NonEmptyArtifactsKeepsAll(paths: seq<string>)
    requires forall k :: 0 <= k < |paths| ==> paths[k] != ""
    ensures NonEmptyArtifacts(paths) == paths
  {
    if paths != [] {
      var init := paths[..|paths| - 1];
      NonEmptyArtifactsKeepsAll(init);
      assert paths == init + [paths[|paths| - 1]];
    }
  }
}
