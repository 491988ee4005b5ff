/**
 * The SPDX 2.2 tag-value document that `outputSPDX` in spdx/builder.py
 * writes for one package: the document creation block, the package block
 * and one block per file, each line a `Tag: value` pair or a blank line.
 *
 * The file being written is modelled as the sequence of lines written to
 * it; `Text` renders such a sequence as the characters in the file.
 */
module Document {
  import opened Strings
  import opened Builder

  /** The tags this document uses. */
  datatype Key =
    | SPDXVersion | DataLicense | SPDXID | DocumentName | DocumentNamespace | Creator | Created
    | PackageName | PackageDownloadLocation | FilesAnalyzed | PackageVerificationCode
    | PackageLicenseConcluded | PackageLicenseInfoFromFiles | PackageLicenseDeclared
    | PackageCopyrightText | Relationship
    | FileName | FileChecksum | LicenseConcluded | LicenseInfoInFile | FileCopyrightText

  /** The tag as it is spelled in the document. */
  function KeyName(key: Key): string {
    match key
    case SPDXVersion => "SPDXVersion"
    case DataLicense => "DataLicense"
    case SPDXID => "SPDXID"
    case DocumentName => "DocumentName"
    case DocumentNamespace => "DocumentNamespace"
    case Creator => "Creator"
    case Created => "Created"
    case PackageName => "PackageName"
    case PackageDownloadLocation => "PackageDownloadLocation"
    case FilesAnalyzed => "FilesAnalyzed"
    case PackageVerificationCode => "PackageVerificationCode"
    case PackageLicenseConcluded => "PackageLicenseConcluded"
    case PackageLicenseInfoFromFiles => "PackageLicenseInfoFromFiles"
    case PackageLicenseDeclared => "PackageLicenseDeclared"
    case PackageCopyrightText => "PackageCopyrightText"
    case Relationship => "Relationship"
    case FileName => "FileName"
    case FileChecksum => "FileChecksum"
    case LicenseConcluded => "LicenseConcluded"
    case LicenseInfoInFile => "LicenseInfoInFile"
    case FileCopyrightText => "FileCopyrightText"
  }

  /** One line of a tag-value document. */
  datatype Line = Tag(key: Key, value: string) | Blank

  /** A line as written, without its line break. */
  function Render(line: Line): string {
    match line
    case Tag(key, value) => KeyName(key) + ": " + value
    case Blank => ""
  }

  /** The characters of a document: every line followed by a line break. */
  function Text(lines: seq<Line>): string {
    if lines == [] then "" else Render(lines[0]) + "\n" + Text(lines[1..])
  }

  /** Writing more lines never changes what is already in the file. */
  lemma {:induction false} TextAppend(a: seq<Line>, b: seq<Line>)
    ensures Text(a + b) == Text(a) + Text(b)
  {
    if a == [] {
      assert a + b == b;
    } else {
      assert (a + b)[1..] == a[1..] + b;
      TextAppend(a[1..], b);
    }
  }

  /** The values of the lines tagged `key`, in document order. */
  function ValuesOf(lines: seq<Line>, key: Key): seq<string> {
    if lines == [] then []
    else (if lines[0].Tag? && lines[0].key == key then [lines[0].value] else []) + ValuesOf(lines[1..], key)
  }

  lemma {:induction false} ValuesOfAppend(a: seq<Line>, b: seq<Line>, key: Key)
    ensures ValuesOf(a + b, key) == ValuesOf(a, key) + ValuesOf(b, key)
  {
    if a == [] {
      assert a + b == b;
    } else {
      assert (a + b)[1..] == a[1..] + b;
      ValuesOfAppend(a[1..], b, key);
    }
  }

  /** One line tagged `key` per value, in order. */
  function TagEach(key: Key, values: seq<string>): (r: seq<Line>)
    ensures |r| == |values|
    ensures forall i :: 0 <= i < |r| ==> r[i] == Tag(key, values[i])
  {
    if values == [] then [] else [Tag(key, values[0])] + TagEach(key, values[1..])
  }

  /** Tagging each value and reading the tag back gives the values; other tags see nothing. */
  lemma {:induction false} ValuesOfTagEach(key: Key, values: seq<string>, other: Key)
    ensures ValuesOf(TagEach(key, values), other) == if other == key then values else []
  {
    if values != [] {
      var r := TagEach(key, values);
      assert r[1..] == TagEach(key, values[1..]);
      ValuesOfTagEach(key, values[1..], other);
    }
  }

  /** No line of `lines` carries `key`. */
  lemma {:induction false} ValuesOfAbsent(lines: seq<Line>, key: Key)
    requires forall i :: 0 <= i < |lines| ==> !lines[i].Tag? || lines[i].key != key
    ensures ValuesOf(lines, key) == []
  {
    if lines != [] {
      assert forall i :: 0 <= i < |lines| - 1 ==> lines[1..][i] == lines[i + 1];
      ValuesOfAbsent(lines[1..], key);
    }
  }

  /* ------------------------------------------------------------------ */
  /* The document, block by block                                        */
  /* ------------------------------------------------------------------ */

  /** The document creation block; `created` is the timestamp of the run. */
  function CreationLines(cfg: BuilderConfig, created: string): seq<Line> {
    [Tag(SPDXVersion, "SPDX-2.2"),
     Tag(DataLicense, "CC0-1.0"),
     Tag(SPDXID, "SPDXRef-DOCUMENT"),
     Tag(DocumentName, cfg.documentName),
     Tag(DocumentNamespace, cfg.documentNamespace),
     Tag(Creator, "Tool: cmake-spdx"),
     Tag(Created, created),
     Blank]
  }

  /** The package lines before the identifiers found in its files. */
  function PackageHead(pkg: BuilderPackage): seq<Line> {
    [Tag(PackageName, pkg.name),
     Tag(SPDXID, pkg.spdxID),
     Tag(PackageDownloadLocation, pkg.downloadLocation),
     Tag(FilesAnalyzed, "true"),
     Tag(PackageVerificationCode, pkg.verificationCode),
     Tag(PackageLicenseConcluded, pkg.licenseConcluded)]
  }

  /** The package lines after them, ending with the DESCRIBES relationship. */
  function PackageTail(pkg: BuilderPackage): seq<Line> {
    [Tag(PackageLicenseDeclared, pkg.licenseDeclared),
     Tag(PackageCopyrightText, "NOASSERTION"),
     Blank,
     Tag(Relationship, "SPDXRef-DOCUMENT DESCRIBES " + pkg.spdxID),
     Blank]
  }

  /** The package block. */
  function PackageLines(pkg: BuilderPackage): seq<Line> {
    PackageHead(pkg) + TagEach(PackageLicenseInfoFromFiles, pkg.licenseInfoFromFiles) + PackageTail(pkg)
  }

  /** The first lines of a file block, written together. */
  function FileHead(bf: BuilderFile): seq<Line> {
    [Tag(FileName, bf.name), Tag(SPDXID, bf.spdxID), Tag(FileChecksum, "SHA1: " + bf.sha1)]
  }

  /** The optional checksum lines: one per digest that was computed. */
  function ExtraChecksums(bf: BuilderFile): seq<Line> {
    (if bf.sha256 != "" then [Tag(FileChecksum, "SHA256: " + bf.sha256)] else []) +
    (if bf.md5 != "" then [Tag(FileChecksum, "MD5: " + bf.md5)] else [])
  }

  function ConcludedLine(bf: BuilderFile): seq<Line> {
    [Tag(LicenseConcluded, bf.licenseConcluded)]
  }

  /** A file without identifiers is listed as having NONE. */
  function InfoLines(bf: BuilderFile): seq<Line> {
    if |bf.licenseInfoInFile| == 0 then [Tag(LicenseInfoInFile, "NONE")]
    else TagEach(LicenseInfoInFile, bf.licenseInfoInFile)
  }

  /** The copyright line and the blank line that ends the block. */
  function FileFoot(bf: BuilderFile): seq<Line> {
    [Tag(FileCopyrightText, bf.copyrightText), Blank]
  }

  /** The block of one file. */
  function FileLines(bf: BuilderFile): seq<Line> {
    FileHead(bf) + ExtraChecksums(bf) + ConcludedLine(bf) + InfoLines(bf) + FileFoot(bf)
  }

  /** The blocks of the files, in order. */
  function FilesLines(bfs: seq<BuilderFile>): seq<Line> {
    if bfs == [] then [] else FilesLines(bfs[..|bfs| - 1]) + FileLines(bfs[|bfs| - 1])
  }

  /** The whole document. */
  function DocumentLines(pkg: BuilderPackage, cfg: BuilderConfig, created: string): seq<Line> {
    CreationLines(cfg, created) + PackageLines(pkg) + FilesLines(pkg.files)
  }

  /**
   * Writes the three parts of the document in order, line by line, into a
   * file opened for writing (so initially empty).
   */
  method OutputSPDX(pkg: BuilderPackage, cfg: BuilderConfig, created: string) returns (out: seq<Line>)
    ensures out == DocumentLines(pkg, cfg, created)
  {
    out := CreationLines(cfg, created);
    out := out + PackageHead(pkg);
    ghost var beforeInfo := out;
    for i := 0 to |pkg.licenseInfoFromFiles|
      invariant out == beforeInfo + TagEach(PackageLicenseInfoFromFiles, pkg.licenseInfoFromFiles[..i])
    {
      TagEachSnoc(PackageLicenseInfoFromFiles, pkg.licenseInfoFromFiles, i);
      out := out + [Tag(PackageLicenseInfoFromFiles, pkg.licenseInfoFromFiles[i])];
    }
    assert pkg.licenseInfoFromFiles[..|pkg.licenseInfoFromFiles|] == pkg.licenseInfoFromFiles;
    out := out + PackageTail(pkg);
    PackageLinesSplit(CreationLines(cfg, created), pkg);
    ghost var header := out;
    for i := 0 to |pkg.files|
      invariant out == header + FilesLines(pkg.files[..i])
    {
      var block := WriteFileBlock(pkg.files[i]);
      FilesLinesSnoc(pkg.files, i);
      AppendAssoc(header, FilesLines(pkg.files[..i]), block);
      out := out + block;
    }
    assert pkg.files[..|pkg.files|] == pkg.files;
  }

  lemma PackageLinesSplit(c: seq<Line>, pkg: BuilderPackage)
    ensures c + PackageHead(pkg) + TagEach(PackageLicenseInfoFromFiles, pkg.licenseInfoFromFiles) + PackageTail(pkg) ==
            c + PackageLines(pkg)
  {
  }

  lemma FilesLinesSnoc(bfs: seq<BuilderFile>, i: nat)
    requires i < |bfs|
    ensures FilesLines(bfs[..i + 1]) == FilesLines(bfs[..i]) + FileLines(bfs[i])
  {
    assert bfs[..i + 1][..i] == bfs[..i];
  }

  lemma AppendAssoc(a: seq<Line>, b: seq<Line>, c: seq<Line>)
    ensures a + b + c == a + (b + c)
  {
  }

  /** The body of `outputSPDX`'s loop over the files: the lines written for one file. */
  method WriteFileBlock(bf: BuilderFile) returns (block: seq<Line>)
    ensures block == FileLines(bf)
  {
    block := [Tag(FileName, bf.name), Tag(SPDXID, bf.spdxID), Tag(FileChecksum, "SHA1: " + bf.sha1)];
    if bf.sha256 != "" {
      block := block + [Tag(FileChecksum, "SHA256: " + bf.sha256)];
    }
    if bf.md5 != "" {
      block := block + [Tag(FileChecksum, "MD5: " + bf.md5)];
    }
    assert block == FileHead(bf) + ExtraChecksums(bf);
    block := block + [Tag(LicenseConcluded, bf.licenseConcluded)];
    ghost var beforeInfo := block;
    if |bf.licenseInfoInFile| == 0 {
      block := block + [Tag(LicenseInfoInFile, "NONE")];
    } else {
      for j := 0 to |bf.licenseInfoInFile|
        invariant block == beforeInfo + TagEach(LicenseInfoInFile, bf.licenseInfoInFile[..j])
      {
        TagEachSnoc(LicenseInfoInFile, bf.licenseInfoInFile, j);
        block := block + [Tag(LicenseInfoInFile, bf.licenseInfoInFile[j])];
      }
      assert bf.licenseInfoInFile[..|bf.licenseInfoInFile|] == bf.licenseInfoInFile;
    }
    assert block == beforeInfo + InfoLines(bf);
    block := block + [Tag(FileCopyrightText, bf.copyrightText), Blank];
  }

  lemma TagEachSnoc(key: Key, values: seq<string>, i: nat)
    requires i < |values|
    ensures TagEach(key, values[..i + 1]) == TagEach(key, values[..i]) + [Tag(key, values[i])]
  {
  }

  /* ------------------------------------------------------------------ */
  /* What the document says                                              */
  /* ------------------------------------------------------------------ */

  /** Reading one tag of the document is reading it in each block. */
  lemma DocumentValues(pkg: BuilderPackage, cfg: BuilderConfig, created: string, key: Key)
    ensures ValuesOf(DocumentLines(pkg, cfg, created), key) ==
            ValuesOf(CreationLines(cfg, created), key) + ValuesOf(PackageLines(pkg), key) + ValuesOf(FilesLines(pkg.files), key)
  {
    ValuesOfAppend(CreationLines(cfg, created) + PackageLines(pkg), FilesLines(pkg.files), key);
    ValuesOfAppend(CreationLines(cfg, created), PackageLines(pkg), key);
  }

  /** The tags of the document creation block. */
  predicate CreationKey(key: Key) {
    key.SPDXVersion? || key.DataLicense? || key.SPDXID? || key.DocumentName? ||
    key.DocumentNamespace? || key.Creator? || key.Created?
  }

  lemma CreationAbsent(cfg: BuilderConfig, created: string, key: Key)
    requires !CreationKey(key)
    ensures ValuesOf(CreationLines(cfg, created), key) == []
  {
    ValuesOfAbsent(CreationLines(cfg, created), key);
  }

  /** The tags of the package block other than the identifiers and the closing lines. */
  predicate PackageHeadKey(key: Key) {
    key.PackageName? || key.SPDXID? || key.PackageDownloadLocation? || key.FilesAnalyzed? ||
    key.PackageVerificationCode? || key.PackageLicenseConcluded?
  }

  lemma PackageHeadAbsent(pkg: BuilderPackage, key: Key)
    requires !PackageHeadKey(key)
    ensures ValuesOf(PackageHead(pkg), key) == []
  {
    ValuesOfAbsent(PackageHead(pkg), key);
  }

  /** The closing lines of the package block. */
  lemma PackageTailValues(pkg: BuilderPackage, key: Key)
    ensures ValuesOf(PackageTail(pkg), key) ==
            (if key == PackageLicenseDeclared then [pkg.licenseDeclared] else []) +
            (if key == PackageCopyrightText then ["NOASSERTION"] else []) +
            (if key == Relationship then ["SPDXRef-DOCUMENT DESCRIBES " + pkg.spdxID] else [])
  {
    var t := PackageTail(pkg);
    assert t == [t[0]] + [t[1]] + [t[2]] + [t[3]] + [t[4]];
    ValuesOfAppend([t[0]] + [t[1]] + [t[2]] + [t[3]], [t[4]], key);
    ValuesOfAppend([t[0]] + [t[1]] + [t[2]], [t[3]], key);
    ValuesOfAppend([t[0]] + [t[1]], [t[2]], key);
    ValuesOfAppend([t[0]], [t[1]], key);
  }

  /** Reading one tag of the package block. */
  lemma PackageValues(pkg: BuilderPackage, key: Key)
    ensures ValuesOf(PackageLines(pkg), key) ==
            ValuesOf(PackageHead(pkg), key) +
            (if key == PackageLicenseInfoFromFiles then pkg.licenseInfoFromFiles else []) +
            ValuesOf(PackageTail(pkg), key)
  {
    var m := TagEach(PackageLicenseInfoFromFiles, pkg.licenseInfoFromFiles);
    ValuesOfAppend(PackageHead(pkg) + m, PackageTail(pkg), key);
    ValuesOfAppend(PackageHead(pkg), m, key);
    ValuesOfTagEach(PackageLicenseInfoFromFiles, pkg.licenseInfoFromFiles, key);
  }

  /** Reading one tag of a file block is reading it in each part. */
  lemma FileValues(bf: BuilderFile, key: Key)
    ensures ValuesOf(FileLines(bf), key) ==
            ValuesOf(FileHead(bf), key) + ValuesOf(ExtraChecksums(bf), key) +
            ValuesOf(ConcludedLine(bf), key) + ValuesOf(InfoLines(bf), key) + ValuesOf(FileFoot(bf), key)
  {
    var h, e, c, i, f := FileHead(bf), ExtraChecksums(bf), ConcludedLine(bf), InfoLines(bf), FileFoot(bf);
    ValuesOfAppend(h + e + c + i, f, key);
    ValuesOfAppend(h + e + c, i, key);
    ValuesOfAppend(h + e, c, key);
    ValuesOfAppend(h, e, key);
  }

  /** The first lines of a file block. */
  lemma FileHeadValues(bf: BuilderFile, key: Key)
    ensures ValuesOf(FileHead(bf), key) ==
            (if key == FileName then [bf.name] else []) +
            (if key == SPDXID then [bf.spdxID] else []) +
            (if key == FileChecksum then ["SHA1: " + bf.sha1] else [])
  {
    var h := FileHead(bf);
    assert h == [h[0]] + [h[1]] + [h[2]];
    ValuesOfAppend([h[0]] + [h[1]], [h[2]], key);
    ValuesOfAppend([h[0]], [h[1]], key);
  }

  /** The optional checksum lines carry only the FileChecksum tag. */
  lemma ExtraChecksumValues(bf: BuilderFile, key: Key)
    ensures ValuesOf(ExtraChecksums(bf), key) ==
            if key != FileChecksum then []
            else (if bf.sha256 != "" then ["SHA256: " + bf.sha256] else []) +
                 (if bf.md5 != "" then ["MD5: " + bf.md5] else [])
  {
    var s256: seq<Line> := if bf.sha256 != "" then [Tag(FileChecksum, "SHA256: " + bf.sha256)] else [];
    var m5: seq<Line> := if bf.md5 != "" then [Tag(FileChecksum, "MD5: " + bf.md5)] else [];
    ValuesOfAppend(s256, m5, key);
  }

  /** The identifier lines of a file carry only the LicenseInfoInFile tag. */
  lemma InfoValues(bf: BuilderFile, key: Key)
    ensures ValuesOf(InfoLines(bf), key) ==
            if key != LicenseInfoInFile then [] else if bf.licenseInfoInFile == [] then ["NONE"] else bf.licenseInfoInFile
  {
    if bf.licenseInfoInFile != [] {
      ValuesOfTagEach(LicenseInfoInFile, bf.licenseInfoInFile, key);
    }
  }

  /** The last lines of a file block. */
  lemma FileTailValues(bf: BuilderFile, key: Key)
    ensures ValuesOf(ConcludedLine(bf), key) == (if key == LicenseConcluded then [bf.licenseConcluded] else [])
    ensures ValuesOf(FileFoot(bf), key) == (if key == FileCopyrightText then [bf.copyrightText] else [])
  {
    var f := FileFoot(bf);
    assert f == [f[0]] + [f[1]];
    ValuesOfAppend([f[0]], [f[1]], key);
  }

  /** The tags a file block uses. */
  predicate FileKey(key: Key) {
    key.FileName? || key.SPDXID? || key.FileChecksum? || key.LicenseConcluded? || key.LicenseInfoInFile? || key.FileCopyrightText?
  }

  /** A file block holds no package-level tag. */
  lemma FileLinesAbsent(bf: BuilderFile, key: Key)
    requires !FileKey(key)
    ensures ValuesOf(FileLines(bf), key) == []
  {
    FileValues(bf, key);
    FileHeadValues(bf, key);
    ExtraChecksumValues(bf, key);
    InfoValues(bf, key);
    FileTailValues(bf, key);
  }

  lemma {:induction false} FilesLinesAbsent(bfs: seq<BuilderFile>, key: Key)
    requires !FileKey(key)
    ensures ValuesOf(FilesLines(bfs), key) == []
  {
    if bfs != [] {
      FilesLinesAbsent(bfs[..|bfs| - 1], key);
      ValuesOfAppend(FilesLines(bfs[..|bfs| - 1]), FileLines(bfs[|bfs| - 1]), key);
      FileLinesAbsent(bfs[|bfs| - 1], key);
    }
  }

  /** One PackageLicenseInfoFromFiles line per identifier of the package, in order, and no other. */
  lemma DocumentPackageLicenseInfo(pkg: BuilderPackage, cfg: BuilderConfig, created: string)
    ensures ValuesOf(DocumentLines(pkg, cfg, created), PackageLicenseInfoFromFiles) == pkg.licenseInfoFromFiles
  {
    DocumentPackageValues(pkg, cfg, created, PackageLicenseInfoFromFiles);
    PackageLicenseInfoValues(pkg);
  }

  lemma PackageLicenseInfoValues(pkg: BuilderPackage)
    ensures ValuesOf(PackageLines(pkg), PackageLicenseInfoFromFiles) == pkg.licenseInfoFromFiles
  {
    PackageValues(pkg, PackageLicenseInfoFromFiles);
    PackageHeadAbsent(pkg, PackageLicenseInfoFromFiles);
    PackageTailValues(pkg, PackageLicenseInfoFromFiles);
  }

  /** A tag the creation block does not use is read from the package and file blocks only. */
  lemma DocumentPackageFilesValues(pkg: BuilderPackage, cfg: BuilderConfig, created: string, key: Key)
    requires !CreationKey(key)
    ensures ValuesOf(DocumentLines(pkg, cfg, created), key) == ValuesOf(PackageLines(pkg), key) + ValuesOf(FilesLines(pkg.files), key)
  {
    DocumentValues(pkg, cfg, created, key);
    CreationAbsent(cfg, created, key);
  }

  /** A package-level tag is read from the package block only. */
  lemma DocumentPackageValues(pkg: BuilderPackage, cfg: BuilderConfig, created: string, key: Key)
    requires !CreationKey(key) && !FileKey(key)
    ensures ValuesOf(DocumentLines(pkg, cfg, created), key) == ValuesOf(PackageLines(pkg), key)
  {
    DocumentPackageFilesValues(pkg, cfg, created, key);
    FilesLinesAbsent(pkg.files, key);
  }

  /** The package's copyright line reads NOASSERTION whatever was configured, and there is one. */
  lemma DocumentCopyright(pkg: BuilderPackage, cfg: BuilderConfig, created: string)
    ensures ValuesOf(DocumentLines(pkg, cfg, created), PackageCopyrightText) == ["NOASSERTION"]
  {
    DocumentPackageValues(pkg, cfg, created, PackageCopyrightText);
    PackageCopyrightValues(pkg);
  }

  lemma PackageCopyrightValues(pkg: BuilderPackage)
    ensures ValuesOf(PackageLines(pkg), PackageCopyrightText) == ["NOASSERTION"]
  {
    PackageValues(pkg, PackageCopyrightText);
    PackageHeadAbsent(pkg, PackageCopyrightText);
    PackageTailValues(pkg, PackageCopyrightText);
  }

  /** Only the first lines and the optional checksum lines carry checksums. */
  lemma FileChecksumParts(bf: BuilderFile)
    ensures ValuesOf(FileLines(bf), FileChecksum) == ["SHA1: " + bf.sha1] + ValuesOf(ExtraChecksums(bf), FileChecksum)
  {
    FileValues(bf, FileChecksum);
    FileHeadValues(bf, FileChecksum);
    FileLastValues(bf, FileChecksum);
  }

  /** The lines after the checksums, read together. */
  lemma FileLastValues(bf: BuilderFile, key: Key)
    ensures ValuesOf(ConcludedLine(bf), key) + ValuesOf(InfoLines(bf), key) + ValuesOf(FileFoot(bf), key) ==
            (if key == LicenseConcluded then [bf.licenseConcluded] else []) +
            (if key != LicenseInfoInFile then [] else if bf.licenseInfoInFile == [] then ["NONE"] else bf.licenseInfoInFile) +
            (if key == FileCopyrightText then [bf.copyrightText] else [])
  {
    InfoValues(bf, key);
    FileTailValues(bf, key);
  }

  /**
   * A file block lists the SHA1 checksum, then a SHA256 and an MD5 one
   * exactly when those digests are non-empty.
   */
  lemma FileChecksums(bf: BuilderFile)
    ensures ValuesOf(FileLines(bf), FileChecksum) ==
            ["SHA1: " + bf.sha1] +
            (if bf.sha256 != "" then ["SHA256: " + bf.sha256] else []) +
            (if bf.md5 != "" then ["MD5: " + bf.md5] else [])
  {
    FileChecksumParts(bf);
    ExtraChecksumValues(bf, FileChecksum);
  }

  /** Only the identifier lines carry the LicenseInfoInFile tag. */
  lemma FileInfoParts(bf: BuilderFile)
    ensures ValuesOf(FileLines(bf), LicenseInfoInFile) == ValuesOf(InfoLines(bf), LicenseInfoInFile)
  {
    FileValues(bf, LicenseInfoInFile);
    FileHeadValues(bf, LicenseInfoInFile);
    ExtraChecksumValues(bf, LicenseInfoInFile);
    FileTailValues(bf, LicenseInfoInFile);
  }

  /**
   * A file block has exactly one LicenseInfoInFile line, reading NONE, when
   * the file has no identifiers, and otherwise one line per identifier, in order.
   */
  lemma FileLicenseInfo(bf: BuilderFile)
    ensures ValuesOf(FileLines(bf), LicenseInfoInFile) ==
            if bf.licenseInfoInFile == [] then ["NONE"] else bf.licenseInfoInFile
  {
    FileInfoParts(bf);
    InfoValues(bf, LicenseInfoInFile);
  }

  /** The names of the files. */
  function Names(bfs: seq<BuilderFile>): (r: seq<string>)
    ensures |r| == |bfs| && forall i :: 0 <= i < |bfs| ==> r[i] == bfs[i].name
  {
    if bfs == [] then [] else Names(bfs[..|bfs| - 1]) + [bfs[|bfs| - 1].name]
  }

  /** The document names every file of the package once, in the package's order. */
  lemma DocumentFileNames(pkg: BuilderPackage, cfg: BuilderConfig, created: string)
    ensures ValuesOf(DocumentLines(pkg, cfg, created), FileName) == Names(pkg.files)
  {
    DocumentPackageFilesValues(pkg, cfg, created, FileName);
    PackageFileNameValues(pkg);
    FilesLinesNames(pkg.files);
  }

  lemma PackageFileNameValues(pkg: BuilderPackage)
    ensures ValuesOf(PackageLines(pkg), FileName) == []
  {
    PackageValues(pkg, FileName);
    PackageHeadAbsent(pkg, FileName);
    PackageTailValues(pkg, FileName);
  }

  /** Each file block names its file once. */
  lemma FileLinesName(bf: BuilderFile)
    ensures ValuesOf(FileLines(bf), FileName) == [bf.name]
  {
    FileValues(bf, FileName);
    FileHeadValues(bf, FileName);
    ExtraChecksumValues(bf, FileName);
    InfoValues(bf, FileName);
    FileTailValues(bf, FileName);
  }

  lemma {:induction false} FilesLinesNames(bfs: seq<BuilderFile>)
    ensures ValuesOf(FilesLines(bfs), FileName) == Names(bfs)
  {
    if bfs != [] {
      FilesLinesNames(bfs[..|bfs| - 1]);
      ValuesOfAppend(FilesLines(bfs[..|bfs| - 1]), FileLines(bfs[|bfs| - 1]), FileName);
      FileLinesName(bfs[|bfs| - 1]);
    }
  }
}
