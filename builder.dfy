/**
 * The package and file records of spdx/builder.py and the steps that fill
 * them: choosing the files to describe, scanning each one, and summarising
 * their licenses at package level.
 *
 * The Python objects are created, filled in once and then only read, so
 * they are modelled as values; the step-by-step field assignments become
 * datatype updates on a local record.
 */
module Builder {
  import opened Wrappers
  import opened Strings
  import opened Licenses

  /* ------------------------------------------------------------------ */
  /* Records                                                             */
  /* ------------------------------------------------------------------ */

  /** The settings of one scan. */
  datatype BuilderConfig = BuilderConfig(
    documentName: string,
    documentNamespace: string,
    packageName: string,
    spdxID: string,
    packageDownloadLocation: string,
    shouldConcludeLicense: bool,
    declaredLicense: string,
    copyrightText: string,
    doSHA256: bool,
    doMD5: bool,
    scandir: string,
    excludeDirs: seq<string>,
    skipScanDirs: seq<string>,
    numLinesScanned: int)

  /** The configuration a fresh `BuilderConfig()` starts with. */
  const DefaultConfig: BuilderConfig := BuilderConfig(
    documentName := "", documentNamespace := "", packageName := "", spdxID := "",
    packageDownloadLocation := "NOASSERTION", shouldConcludeLicense := true,
    declaredLicense := "NOASSERTION", copyrightText := "NOASSERTION",
    doSHA256 := false, doMD5 := false, scandir := "", excludeDirs := [".git/"],
    skipScanDirs := [], numLinesScanned := 20)

  /** One file of a package. */
  datatype BuilderFile = BuilderFile(
    name: string,
    spdxID: string,
    fileType: string,
    sha1: string,
    sha256: string,
    md5: string,
    licenseConcluded: string,
    licenseInfoInFile: seq<string>,
    copyrightText: string)

  /** A fresh `BuilderFile()`. */
  const NewFile: BuilderFile := BuilderFile(
    name := "", spdxID := "", fileType := "", sha1 := "", sha256 := "", md5 := "",
    licenseConcluded := "NOASSERTION", licenseInfoInFile := [], copyrightText := "NOASSERTION")

  /** A package and its files. */
  datatype BuilderPackage = BuilderPackage(
    name: string,
    spdxID: string,
    downloadLocation: string,
    verificationCode: string,
    licenseConcluded: string,
    licenseInfoFromFiles: seq<string>,
    licenseDeclared: string,
    copyrightText: string,
    files: seq<BuilderFile>)
  {
    /** `initFromConfig`: the package-level fields come from the configuration; the files are kept. */
    function InitFromConfig(cfg: BuilderConfig): (p: BuilderPackage)
      ensures p.name == cfg.packageName && p.spdxID == cfg.spdxID
      ensures p.downloadLocation == cfg.packageDownloadLocation
      ensures p.licenseDeclared == cfg.declaredLicense && p.copyrightText == cfg.copyrightText
      ensures p.verificationCode == "" && p.licenseConcluded == "NOASSERTION" && p.licenseInfoFromFiles == []
      ensures p.files == files
    {
      this.(name := cfg.packageName, spdxID := cfg.spdxID,
            downloadLocation := cfg.packageDownloadLocation, verificationCode := "",
            licenseConcluded := "NOASSERTION", licenseInfoFromFiles := [],
            licenseDeclared := cfg.declaredLicense, copyrightText := cfg.copyrightText)
    }
  }

  /** A fresh `BuilderPackage()`. */
  const NewPackage: BuilderPackage := BuilderPackage(
    name := "", spdxID := "", downloadLocation := "", verificationCode := "",
    licenseConcluded := "", licenseInfoFromFiles := [], licenseDeclared := "",
    copyrightText := "", files := [])

  /* ------------------------------------------------------------------ */
  /* shouldExcludeFile, getAllPaths                                      */
  /* ------------------------------------------------------------------ */

  /** A file is excluded when any exclusion string occurs anywhere in its path. */
  function ShouldExcludeFile(filename: string, excludes: seq<string>): (r: bool)
    ensures r <==> exists k :: 0 <= k < |excludes| && Occurs(excludes[k], filename)
  {
    if excludes == [] then false
    else if Contains(filename, excludes[0]) then true
    else
      var r := ShouldExcludeFile(filename, excludes[1..]);
      assert forall k :: 1 <= k < |excludes| ==> excludes[k] == excludes[1..][k - 1];
      r
  }

  /** The walked paths that are not excluded, in walk order. */
  function Kept(walked: seq<string>, excludes: seq<string>): (r: seq<string>)
    ensures forall p :: multiset(r)[p] == if ShouldExcludeFile(p, excludes) then 0 else multiset(walked)[p]
  {
    if walked == [] then []
    else
      var init := walked[..|walked| - 1];
      var last := walked[|walked| - 1];
      assert walked == init + [last];
      Kept(init, excludes) + if ShouldExcludeFile(last, excludes) then [] else [last]
  }

  /**
   * `getAllPaths`, given the paths `os.walk` produces under the scanned
   * directory (each already joined to its directory), in walk order: the
   * sorted list of those no exclusion occurs in, each as often as walked.
   */
  method GetAllPaths(walked: seq<string>, excludes: seq<string>) returns (paths: seq<string>)
    ensures paths == Sort(Kept(walked, excludes))
    ensures Sorted(paths)
    ensures forall p :: multiset(paths)[p] == if ShouldExcludeFile(p, excludes) then 0 else multiset(walked)[p]
  {
    var kept: seq<string> := [];
    for i := 0 to |walked|
      invariant kept == Kept(walked[..i], excludes)
    {
      assert walked[..i + 1] == walked[..i] + [walked[i]];
      var p := walked[i];
      if !ShouldExcludeFile(p, excludes) {
        kept := kept + [p];
      }
    }
    assert walked[..|walked|] == walked;
    paths := Sort(kept);
  }

  /** The order in which the directory walk visits files does not matter. */
  lemma WalkOrderIrrelevant(walked1: seq<string>, walked2: seq<string>, excludes: seq<string>)
    requires multiset(walked1) == multiset(walked2)
    ensures Sort(Kept(walked1, excludes)) == Sort(Kept(walked2, excludes))
  {
    var k1 := Kept(walked1, excludes);
    var k2 := Kept(walked2, excludes);
    assert multiset(k1) == multiset(k2) by {
      forall p ensures multiset(k1)[p] == multiset(k2)[p] {
      }
    }
    SortedPermutationUnique(Sort(k1), Sort(k2));
  }

  /* ------------------------------------------------------------------ */
  /* makeFileData, makeAllFileData                                       */
  /* ------------------------------------------------------------------ */

  /** `f"SPDXRef-File{fileno}"` */
  function FileID(fileno: nat): string {
    "SPDXRef-File" + NatToString(fileno)
  }

  /** Distinct file numbers give distinct SPDX identifiers. */
  lemma FileIDInjective(m: nat, n: nat)
    requires FileID(m) == FileID(n)
    ensures m == n
  {
    var prefix := "SPDXRef-File";
    assert FileID(m)[|prefix|..] == NatToString(m);
    assert FileID(n)[|prefix|..] == NatToString(n);
    NatToStringInjective(m, n);
  }

  /** The three message-digest algorithms, as functions of a file's bytes. */
  datatype Digests = Digests(sha1: seq<bv8> -> string, sha256: seq<bv8> -> string, md5: seq<bv8> -> string)

  /** A file on disk: its bytes, which are hashed, and those bytes opened as text. */
  datatype FileData = FileData(bytes: seq<bv8>, text: TextFile)

  /** What `makeFileData` records for the file at `filePath`, numbered `fileno`. */
  function FileRecord(filePath: string, cfg: BuilderConfig, fileno: nat, file: FileData, digests: Digests): BuilderFile {
    var expression := ExpressionOf(file.text, cfg.numLinesScanned);
    BuilderFile(
      name := filePath,
      spdxID := FileID(fileno),
      fileType := "",
      sha1 := digests.sha1(file.bytes),
      sha256 := if cfg.doSHA256 then digests.sha256(file.bytes) else "",
      md5 := if cfg.doMD5 then digests.md5(file.bytes) else "",
      licenseConcluded := if expression.Some? then expression.value else "NOASSERTION",
      licenseInfoInFile := if expression.Some? then SplitExpression(expression.value) else [],
      copyrightText := "NOASSERTION")
  }

  /**
   * A file's license fields: with a tagged expression, that expression and
   * its sorted identifiers (never an empty list); without one, NOASSERTION
   * and the empty list.
   */
  lemma FileRecordLicense(filePath: string, cfg: BuilderConfig, fileno: nat, file: FileData, digests: Digests)
    ensures var bf := FileRecord(filePath, cfg, fileno, file, digests);
            match ExpressionOf(file.text, cfg.numLinesScanned)
            case None => bf.licenseConcluded == "NOASSERTION" && bf.licenseInfoInFile == []
            case Some(e) => bf.licenseConcluded == e && bf.licenseInfoInFile != [] && Sorted(bf.licenseInfoInFile) &&
                            multiset(bf.licenseInfoInFile) == multiset(Tokens(e))
  {
  }

  /** Fills in a fresh file record field by field. */
  method MakeFileData(filePath: string, cfg: BuilderConfig, fileno: nat, file: FileData, digests: Digests)
    returns (bf: BuilderFile)
    ensures bf == FileRecord(filePath, cfg, fileno, file, digests)
  {
    bf := NewFile;
    bf := bf.(name := filePath);
    bf := bf.(spdxID := FileID(fileno));
    var sha1, sha256, md5 := digests.sha1(file.bytes), digests.sha256(file.bytes), digests.md5(file.bytes);
    bf := bf.(sha1 := sha1);
    if cfg.doSHA256 {
      bf := bf.(sha256 := sha256);
    }
    if cfg.doMD5 {
      bf := bf.(md5 := md5);
    }
    var expression := GetExpressionData(file.text, cfg.numLinesScanned);
    if expression != None {
      bf := bf.(licenseConcluded := expression.value);
      bf := bf.(licenseInfoInFile := SplitExpression(expression.value));
    }
  }

  /** The records of `filePaths`, numbered from `first` on. */
  function FileRecordsFrom(filePaths: seq<string>, cfg: BuilderConfig, first: nat, fs: map<string, FileData>, digests: Digests): (bfs: seq<BuilderFile>)
    requires forall p :: p in filePaths ==> p in fs
    ensures |bfs| == |filePaths|
    ensures forall i :: 0 <= i < |bfs| ==> bfs[i] == FileRecord(filePaths[i], cfg, first + i, fs[filePaths[i]], digests)
  {
    if filePaths == [] then []
    else
      var rest := FileRecordsFrom(filePaths[1..], cfg, first + 1, fs, digests);
      var r := [FileRecord(filePaths[0], cfg, first, fs[filePaths[0]], digests)] + rest;
      assert forall i :: 0 <= i < |r| ==> r[i] == FileRecord(filePaths[i], cfg, first + i, fs[filePaths[i]], digests) by {
        forall i | 0 <= i < |r|
          ensures r[i] == FileRecord(filePaths[i], cfg, first + i, fs[filePaths[i]], digests)
        {
          if i > 0 {
            assert r[i] == rest[i - 1];
            assert filePaths[1..][i - 1] == filePaths[i];
            assert first + 1 + (i - 1) == first + i;
          }
        }
      }
      r
  }

  /** What `makeAllFileData` returns: one record per path, in order, numbered from 1. */
  function AllFileRecords(filePaths: seq<string>, cfg: BuilderConfig, fs: map<string, FileData>, digests: Digests): seq<BuilderFile>
    requires forall p :: p in filePaths ==> p in fs
  {
    FileRecordsFrom(filePaths, cfg, 1, fs, digests)
  }

  /** Record `i` (from 0) describes path `i` and is identified as file `i + 1`. */
  lemma AllFileRecordsAt(filePaths: seq<string>, cfg: BuilderConfig, fs: map<string, FileData>, digests: Digests, i: nat)
    requires forall p :: p in filePaths ==> p in fs
    requires i < |filePaths|
    ensures var bfs := AllFileRecords(filePaths, cfg, fs, digests);
            |bfs| == |filePaths| && bfs[i].name == filePaths[i] && bfs[i].spdxID == FileID(i + 1)
  {
  }

  /** The records of one scan carry pairwise distinct SPDX identifiers. */
  lemma AllFileIDsDistinct(filePaths: seq<string>, cfg: BuilderConfig, fs: map<string, FileData>, digests: Digests, i: nat, j: nat)
    requires forall p :: p in filePaths ==> p in fs
    requires i < j < |filePaths|
    ensures AllFileRecords(filePaths, cfg, fs, digests)[i].spdxID != AllFileRecords(filePaths, cfg, fs, digests)[j].spdxID
  {
    if FileID(i + 1) == FileID(j + 1) {
      FileIDInjective(i + 1, j + 1);
    }
  }

  /** Scans the files one by one, counting `fileno` up from 1. */
  method MakeAllFileData(filePaths: seq<string>, cfg: BuilderConfig, fs: map<string, FileData>, digests: Digests)
    returns (bfs: seq<BuilderFile>)
    requires forall p :: p in filePaths ==> p in fs
    ensures bfs == AllFileRecords(filePaths, cfg, fs, digests)
  {
    ghost var all := AllFileRecords(filePaths, cfg, fs, digests);
    bfs := [];
    var fileno := 1;
    for i := 0 to |filePaths|
      invariant fileno == i + 1
      invariant bfs == all[..i]
    {
      var filePath := filePaths[i];
      var bf := MakeFileData(filePath, cfg, fileno, fs[filePath], digests);
      assert all[..i + 1] == all[..i] + [bf];
      fileno := fileno + 1;
      bfs := bfs + [bf];
    }
    assert all[..|filePaths|] == all;
  }

  /* ------------------------------------------------------------------ */
  /* getPackageLicenses                                                  */
  /* ------------------------------------------------------------------ */

  /**
   * A Python set of strings is kept as its sorted list of distinct
   * elements, so that `sorted(list(s))` is that list itself.
   */
  function AddAll(s: seq<string>, xs: seq<string>): (r: seq<string>)
    requires StrictlySorted(s)
    ensures StrictlySorted(r)
    ensures forall y :: y in r <==> y in s || y in xs
  {
    if xs == [] then s
    else
      var init := xs[..|xs| - 1];
      assert xs == init + [xs[|xs| - 1]];
      AddToSet(AddAll(s, init), xs[|xs| - 1])
  }

  /** The distinct concluded licenses of the files. */
  function ConcludedSet(bfs: seq<BuilderFile>): (r: seq<string>)
    ensures StrictlySorted(r)
    ensures forall x :: x in r <==> exists i :: 0 <= i < |bfs| && bfs[i].licenseConcluded == x
  {
    if bfs == [] then []
    else
      var init := bfs[..|bfs| - 1];
      assert forall i :: 0 <= i < |init| ==> init[i] == bfs[i];
      AddToSet(ConcludedSet(init), bfs[|bfs| - 1].licenseConcluded)
  }

  /** The distinct identifiers found in the files. */
  function InfoSet(bfs: seq<BuilderFile>): (r: seq<string>)
    ensures StrictlySorted(r)
    ensures forall x :: x in r <==> exists i :: 0 <= i < |bfs| && x in bfs[i].licenseInfoInFile
  {
    if bfs == [] then []
    else
      var init := bfs[..|bfs| - 1];
      assert forall i :: 0 <= i < |init| ==> init[i] == bfs[i];
      AddAll(InfoSet(init), bfs[|bfs| - 1].licenseInfoInFile)
  }

  /** The package-level summaries depend only on which values occur, not on the order of the files. */
  lemma LicenseSetsOrderIndependent(bfs1: seq<BuilderFile>, bfs2: seq<BuilderFile>)
    requires forall bf :: bf in bfs1 <==> bf in bfs2
    ensures ConcludedSet(bfs1) == ConcludedSet(bfs2)
    ensures InfoSet(bfs1) == InfoSet(bfs2)
  {
    var c1, c2 := ConcludedSet(bfs1), ConcludedSet(bfs2);
    forall x | x in c1 ensures x in c2 {
      var i :| 0 <= i < |bfs1| && bfs1[i].licenseConcluded == x;
      assert bfs1[i] in bfs2;
    }
    forall x | x in c2 ensures x in c1 {
      var i :| 0 <= i < |bfs2| && bfs2[i].licenseConcluded == x;
      assert bfs2[i] in bfs1;
    }
    StrictlySortedUnique(c1, c2);
    var f1, f2 := InfoSet(bfs1), InfoSet(bfs2);
    forall x | x in f1 ensures x in f2 {
      var i :| 0 <= i < |bfs1| && x in bfs1[i].licenseInfoInFile;
      assert bfs1[i] in bfs2;
    }
    forall x | x in f2 ensures x in f1 {
      var i :| 0 <= i < |bfs2| && x in bfs2[i].licenseInfoInFile;
      assert bfs2[i] in bfs1;
    }
    StrictlySortedUnique(f1, f2);
  }

  /** Collects both sets over all files, then lists each in sorted order. */
  method GetPackageLicenses(bfs: seq<BuilderFile>) returns (licsConcluded: seq<string>, licsFromFiles: seq<string>)
    ensures licsConcluded == ConcludedSet(bfs) && licsFromFiles == InfoSet(bfs)
  {
    licsConcluded := [];
    licsFromFiles := [];
    for i := 0 to |bfs|
      invariant licsConcluded == ConcludedSet(bfs[..i])
      invariant licsFromFiles == InfoSet(bfs[..i])
    {
      assert bfs[..i + 1][..i] == bfs[..i];
      var bf := bfs[i];
      licsConcluded := AddToSet(licsConcluded, bf.licenseConcluded);
      ghost var before := licsFromFiles;
      for j := 0 to |bf.licenseInfoInFile|
        invariant StrictlySorted(licsFromFiles)
        invariant licsFromFiles == AddAll(before, bf.licenseInfoInFile[..j])
      {
        assert bf.licenseInfoInFile[..j + 1][..j] == bf.licenseInfoInFile[..j];
        licsFromFiles := AddToSet(licsFromFiles, bf.licenseInfoInFile[j]);
      }
      assert bf.licenseInfoInFile[..|bf.licenseInfoInFile|] == bf.licenseInfoInFile;
    }
    assert bfs[..|bfs|] == bfs;
  }

  /* ------------------------------------------------------------------ */
  /* makePackageData                                                     */
  /* ------------------------------------------------------------------ */

  /** The package `makePackageData` builds from a scan. */
  function PackageOf(cfg: BuilderConfig, walked: seq<string>, fs: map<string, FileData>, digests: Digests): BuilderPackage
    requires forall p :: p in walked ==> p in fs
  {
    var paths := Sort(Kept(walked, cfg.excludeDirs));
    KeptPathsWalked(walked, cfg.excludeDirs);
    var bfs := AllFileRecords(paths, cfg, fs, digests);
    var pkg := NewPackage.InitFromConfig(cfg);
    pkg.(licenseConcluded := if cfg.shouldConcludeLicense then Normalized(ConcludedSet(bfs)) else pkg.licenseConcluded,
         licenseInfoFromFiles := InfoSet(bfs),
         files := bfs)
  }

  /** Every path that survives the filter was walked. */
  lemma KeptPathsWalked(walked: seq<string>, excludes: seq<string>)
    ensures forall p :: p in Sort(Kept(walked, excludes)) ==> p in walked
  {
    var paths := Sort(Kept(walked, excludes));
    forall p | p in paths
      ensures p in walked
    {
      assert p in multiset(paths);
    }
  }

  /** The package describes the kept paths, in sorted order, and takes its name and identity from the configuration. */
  lemma PackageOfFiles(cfg: BuilderConfig, walked: seq<string>, fs: map<string, FileData>, digests: Digests)
    requires forall p :: p in walked ==> p in fs
    ensures var pkg := PackageOf(cfg, walked, fs, digests);
            var paths := Sort(Kept(walked, cfg.excludeDirs));
            |pkg.files| == |paths| &&
            (forall i :: 0 <= i < |pkg.files| ==> pkg.files[i].name == paths[i] && pkg.files[i].spdxID == FileID(i + 1)) &&
            pkg.name == cfg.packageName && pkg.spdxID == cfg.spdxID && pkg.licenseDeclared == cfg.declaredLicense
  {
    var paths := Sort(Kept(walked, cfg.excludeDirs));
    KeptPathsWalked(walked, cfg.excludeDirs);
    var bfs := AllFileRecords(paths, cfg, fs, digests);
    assert PackageOf(cfg, walked, fs, digests).files == bfs;
    forall i | 0 <= i < |bfs|
      ensures bfs[i].name == paths[i] && bfs[i].spdxID == FileID(i + 1)
    {
      AllFileRecordsAt(paths, cfg, fs, digests, i);
    }
  }

  /**
   * The package's concluded license is the AND-combination of the files'
   * distinct concluded licenses when so configured and NOASSERTION
   * otherwise; its identifiers are the distinct identifiers found in the files.
   */
  lemma PackageOfLicenses(cfg: BuilderConfig, walked: seq<string>, fs: map<string, FileData>, digests: Digests)
    requires forall p :: p in walked ==> p in fs
    ensures var pkg := PackageOf(cfg, walked, fs, digests);
            pkg.licenseConcluded == (if cfg.shouldConcludeLicense then Normalized(ConcludedSet(pkg.files)) else "NOASSERTION") &&
            pkg.licenseInfoFromFiles == InfoSet(pkg.files)
  {
  }

  /** Sets up the package, scans its files and summarises their licenses. */
  method MakePackageData(cfg: BuilderConfig, walked: seq<string>, fs: map<string, FileData>, digests: Digests)
    returns (pkg: BuilderPackage)
    requires forall p :: p in walked ==> p in fs
    ensures pkg == PackageOf(cfg, walked, fs, digests)
  {
    pkg := NewPackage;
    pkg := pkg.InitFromConfig(cfg);
    var filePaths := GetAllPaths(walked, cfg.excludeDirs);
    KeptPathsWalked(walked, cfg.excludeDirs);
    var bfs := MakeAllFileData(filePaths, cfg, fs, digests);
    var licsConcluded, licsFromFiles := GetPackageLicenses(bfs);
    if cfg.shouldConcludeLicense {
      var concluded := NormalizeExpression(licsConcluded);
      pkg := pkg.(licenseConcluded := concluded);
    }
    pkg := pkg.(licenseInfoFromFiles := licsFromFiles);
    pkg := pkg.(files := bfs);
  }
}
