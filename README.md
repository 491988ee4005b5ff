# cmake-spdx, modelled in Dafny

cmake-spdx turns a CMake build into two SPDX 2.2 tag-value documents.

- The **sources** document describes the files of the source tree.
- The **build** document describes the files of the build tree. It also carries `Relationship:` lines that tie each build artifact to the sources it was generated from and to the static libraries it links.

This project models the core of that pipeline as Dafny values, functions and methods, and proves what each step promises.

- `Strings` holds the Python string and ordering primitives the core relies on:
  - `str.partition`, `strip`, `rstrip(chars)`, `split(" ")`;
  - `sorted` on `str`, which compares code point by code point;
  - the `in` substring test;
  - `os.path.join(".", p)`;
  - decimal rendering of the file number.
- `Licenses` covers license detection in spdx/builder.py:
  - `parseLineForExpression`;
  - the line-limited scan of `getExpressionData`;
  - the lossy flattening in `splitExpression`, with the `re.IGNORECASE` operator substitution written out;
  - `normalizeExpression`.
- `Builder` holds the `BuilderConfig`, `BuilderPackage` and `BuilderFile` records, plus:
  - `shouldExcludeFile` and `getAllPaths`;
  - `makeFileData` and `makeAllFileData`;
  - `getPackageLicenses` and `makePackageData`.
- `Document` models the document `outputSPDX` writes, as a sequence of lines (`Tag(key, value)` or `Blank`), and `Text` as the characters of the file.
- `CMake` models the parts of the CMake file-API code model that are read: target types, artifacts, dependencies and sources. It also covers `parseTargetType` and the loader's dropping of empty artifact paths.
- `Sbom` models `getCmakeRelationships`, which derives GENERATED_FROM and STATIC_LINK edges from the first configuration.
- `Relationships` models `resolveRelationshipID` and `outputSPDXRelationships`, which append one relationship line per resolvable edge.

Each loop of the source that builds a result is a `method` whose `ensures` ties that result to a specification function. The two searches that only compute a value are recursive functions instead: the `for exc in excludes` test of `shouldExcludeFile` (`Builder.ShouldExcludeFile`) and the `for f in pkg.files` lookup of `resolveRelationshipID` (`Relationships.FindFileID`). The loop that drops empty artifact paths while the JSON loader fills a target (`CMake.NonEmptyArtifacts`) is a recursive function too, because the model takes a target as a value. The properties of the specification functions are proved as lemmas: sortedness and permutation, first-match semantics, order independence, the exact lines each tag receives, and the soundness and completeness of the edge set.

Three behaviours of the code are worth stating plainly, and the model keeps each of them:

- `splitExpression` splits on single spaces and does not deduplicate. Its result is a sorted list that may repeat identifiers or contain empty strings.
- `resolveRelationshipID` treats a path as a build path purely by its `./` or `.\` prefix. `CMake.TargetSource` carries the file API's "generated" flag, but the code never reads it, and neither does the model.
- When every concluded expression of a package is `NONE` or `NOASSERTION` and there are at least two of them, `normalizeExpression` returns the empty string (`Licenses.Normalized`).

## Model

| member | source | states |
|---|---|---|
| Strings.AfterFirst | spdx/builder.py:142 | the text after the first occurrence of the separator, or "" when it does not occur (the third part of `str.partition`) |
| Strings.AfterFirstNonEmpty | spdx/builder.py:142-144 | the text after the marker is non-empty iff the marker's first occurrence ends before the end of the line |
| Strings.Contains | spdx/builder.py:118 | the substring test holds iff the substring occurs at some position |
| Strings.Strip | spdx/builder.py:146-148 | the result neither starts nor ends with Python whitespace |
| Strings.StripRemovesOnlySpace | spdx/builder.py:146 | stripping removes only whitespace: the result is a slice of the input with only whitespace on either side |
| Strings.LStripDropsSpace | spdx/builder.py:146 | every character dropped from the left is whitespace |
| Strings.RStripDropsSpace | spdx/builder.py:146 | every character dropped from the right is whitespace |
| Strings.RStripChars | spdx/builder.py:147 | the result is a prefix of the input that does not end in one of the given characters, and every character dropped from the end is one of them |
| Strings.RemoveChars | spdx/builder.py:188 | the result has none of the removed characters, only characters of the input, and is the input when none occur |
| Strings.RemoveCharsKeepsOrder | spdx/builder.py:188 | every character outside the removed ones is kept, once and in its original order, and nothing else |
| Strings.SplitOn | spdx/builder.py:194 | at least one field; no field contains the separator; fields hold only input characters |
| Strings.SplitThenJoin | spdx/builder.py:194 | joining the fields with the separator gives the input back |
| Strings.JoinDot | sbom.py:35 | `os.path.join(".", p)`: an absolute path is kept as it is, any other gets "./" in front |
| Strings.LessTotal | spdx/builder.py:138 | Python's string order is total |
| Strings.LessTransitive | spdx/builder.py:138 | Python's string order is transitive |
| Strings.Insert | spdx/builder.py:138 | inserting into a sorted list keeps it sorted and adds exactly that element |
| Strings.Sort | spdx/builder.py:138 | the result is sorted and a permutation of the input |
| Strings.SortedPermutationUnique | spdx/builder.py:138 | two sorted permutations of the same elements are equal, so `sorted` has one answer |
| Strings.SortPair | spdx/builder.py:196 | sorting two strings puts the lesser first |
| Strings.AddToSet | spdx/builder.py:276-278 | `set.add` on a set kept as a strictly sorted list: still strictly sorted, holding exactly the old members and the new one |
| Strings.StrictlySortedUnique | spdx/builder.py:279 | a set has a single strictly sorted listing |
| Strings.NatToString | spdx/builder.py:230 | the decimal rendering is a non-empty string of digits with no leading zero; 0 is rendered "0" |
| Strings.DecimalRoundTrip | spdx/builder.py:230 | reading the rendered digits back gives the number |
| Strings.NatToStringInjective | spdx/builder.py:230 | different numbers render differently |
| Licenses.ParseLineForExpressionTagged | spdx/builder.py:140-149 | a line has an expression iff text follows the first marker; without a marker there is none; a found expression carries no outer whitespace |
| Licenses.ParseWithoutCommentMarks | spdx/builder.py:145-149 | when the tagged text does not end in a comment mark, the expression is that text, stripped |
| Licenses.ScanLimit | spdx/builder.py:164-168 | the number of lines examined never exceeds the file's lines |
| Licenses.FirstSome | spdx/builder.py:169-171 | the first present value, preceded only by absent ones; absent iff all are absent |
| Licenses.FirstSomeAt | spdx/builder.py:169-171 | the first tagged line decides, whatever follows |
| Licenses.ExpressionFound | spdx/builder.py:164-171 | a tagged line within the limit, after untagged ones, gives the file's expression |
| Licenses.ExpressionAbsent | spdx/builder.py:164-177 | with no tagged line within the limit the file has no expression |
| Licenses.ScanLines | spdx/builder.py:164-171 | the loop stops at the first parsed line, or after the limit, having seen only untagged lines before |
| Licenses.GetExpressionData | spdx/builder.py:151-177 | the result is the expression of the first tagged line within the limit, None when there is none or decoding fails first |
| Licenses.WordAtItself | spdx/builder.py:191 | a pattern word spelled exactly as in the pattern matches itself |
| Licenses.WordAtLetters | spdx/builder.py:191 | a word matches iff each of its letters matches the character at its offset, ignoring case |
| Licenses.WordAtShift | spdx/builder.py:191 | any case spelling of a pattern word matches that word wherever it occurs in the text |
| Licenses.OperatorWordLetters | spdx/builder.py:188-191 | a case spelling of AND, OR or WITH holds no space, parenthesis or plus |
| Licenses.OperatorLength | spdx/builder.py:191 | a match of the operator pattern starts with a space and is at least two characters long |
| Licenses.OperatorLengthOf | spdx/builder.py:191 | each of AND, OR, WITH, in any case spelling, between spaces is matched whole |
| Licenses.ReplaceOperators | spdx/builder.py:191 | the substitution never lengthens the text or introduces characters |
| Licenses.ReplaceOperatorsWord | spdx/builder.py:191 | text without spaces passes through the substitution unchanged |
| Licenses.ReplaceOperatorsWhole | spdx/builder.py:191 | a word without spaces holds no operator |
| Licenses.ReplaceOperatorAt | spdx/builder.py:191 | an operator at the front becomes a single space |
| Licenses.ReplaceBinary | spdx/builder.py:191 | `a OP b` becomes `a b` |
| Licenses.ReplaceOperatorAfter | spdx/builder.py:191 | an identifier followed by an operator in any case spelling: the identifier is kept and the operator becomes one space |
| Licenses.ReplaceOperatorsChain | spdx/builder.py:191 | in a chain of identifiers and operators, spelled in any case, every operator becomes one space: the identifiers joined by single spaces |
| Licenses.SplitOnWord | spdx/builder.py:194 | a field without the separator is split off whole |
| Licenses.SplitOnNoSeparator | spdx/builder.py:194 | text without the separator is one field |
| Licenses.TokensBare | spdx/builder.py:187-194 | no field of a flattened expression contains a space, parenthesis or plus |
| Licenses.TokensBinary | spdx/builder.py:187-194 | the fields of `a OP b` are the two identifiers, whatever the case of OP |
| Licenses.SplitExpression | spdx/builder.py:179-196 | the identifiers are sorted, never an empty list, and free of spaces and grouping marks |
| Licenses.SplitBinaryExpression | spdx/builder.py:179-196 | `a OP b` flattens to the two identifiers in sorted order, duplicates kept, whatever the case of OP |
| Licenses.ChainBare | spdx/builder.py:187-188 | a chain of bare identifiers and operator words holds no parenthesis or plus |
| Licenses.ChainUngrouped | spdx/builder.py:187-188 | removing parentheses and plus signs leaves such a chain unchanged |
| Licenses.SplitJoined | spdx/builder.py:193-194 | splitting identifiers joined by single spaces gives them back |
| Licenses.TokensChain | spdx/builder.py:187-194 | an expression that is a chain, operators spelled in any case, once parentheses and plus signs are removed has exactly the chain's identifiers as fields, in order, repeats kept |
| Licenses.SplitChainExpression | spdx/builder.py:179-196 | such an expression flattens to its identifiers sorted, duplicates kept |
| Licenses.SplitLowercaseOperator | spdx/builder.py:179-196 | "mit or Apache-2.0" flattens to ["Apache-2.0", "mit"]: lower-case operators are found |
| Licenses.Conjuncts | spdx/builder.py:298-305 | the AND-ed terms: non-placeholder expressions, parenthesised when they hold a space; empty iff all are placeholders |
| Licenses.ConjunctsInOrder | spdx/builder.py:298-305 | one term per non-placeholder expression, in the order of the expressions, repeats kept, and no other term |
| Licenses.Normalized | spdx/builder.py:281-306 | NOASSERTION for no expression, the single expression unchanged, "" when two or more are all placeholders |
| Licenses.NormalizedPair | spdx/builder.py:298-306 | two real expressions are joined by AND, compound ones parenthesised |
| Licenses.NormalizeExpression | spdx/builder.py:281-306 | the loop builds exactly the normalized expression |
| Builder.BuilderPackage.InitFromConfig | spdx/builder.py:83-91 | name, identifier, download location, declared license and copyright come from the configuration; the files are kept |
| Builder.ShouldExcludeFile | spdx/builder.py:108-120 | a path is excluded iff some exclusion string occurs anywhere in it |
| Builder.Kept | spdx/builder.py:131-137 | each path keeps its multiplicity unless excluded, when it disappears |
| Builder.GetAllPaths | spdx/builder.py:122-138 | the result is sorted and holds exactly the walked paths that are not excluded |
| Builder.WalkOrderIrrelevant | spdx/builder.py:133-138 | the order in which the directory walk yields paths does not change the result |
| Builder.KeptPathsWalked | spdx/builder.py:131-138 | every listed path was walked |
| Builder.FileIDInjective | spdx/builder.py:230 | different file numbers give different identifiers |
| Builder.FileRecordLicense | spdx/builder.py:239-242 | with an expression, it is concluded and its identifiers, a sorted permutation of its fields, are listed; without one, NOASSERTION and no identifiers |
| Builder.MakeFileData | spdx/builder.py:218-244 | the record of the file: name, numbered identifier, digests by configuration, license fields |
| Builder.FileRecordsFrom | spdx/builder.py:255-262 | one record per path, in order, numbered consecutively |
| Builder.AllFileRecordsAt | spdx/builder.py:246-262 | the i-th record describes the i-th path and is numbered i+1 |
| Builder.AllFileIDsDistinct | spdx/builder.py:256-259 | file identifiers are unique within a package |
| Builder.MakeAllFileData | spdx/builder.py:246-262 | the loop builds all the records, numbering from 1 |
| Builder.AddAll | spdx/builder.py:277-278 | adding a list of members keeps a set strictly sorted and adds exactly those members |
| Builder.ConcludedSet | spdx/builder.py:273-276 | the sorted distinct concluded licenses of the files |
| Builder.InfoSet | spdx/builder.py:274-278 | the sorted distinct identifiers found in the files |
| Builder.LicenseSetsOrderIndependent | spdx/builder.py:273-279 | the package's license lists depend on which files there are, not on their order or repetition |
| Builder.GetPackageLicenses | spdx/builder.py:264-279 | the loop returns both sorted distinct lists |
| Builder.PackageOfFiles | spdx/builder.py:316-326 | the package describes the kept paths in sorted order, numbered from 1, and is named and identified by the configuration |
| Builder.PackageOfLicenses | spdx/builder.py:321-325 | the concluded license is the normalized set of the files' ones when so configured, else NOASSERTION; the identifiers are the files' distinct ones |
| Builder.MakePackageData | spdx/builder.py:308-328 | the steps build exactly that package |
| Document.TextAppend | spdx/relationships.py:61 | writing more lines never changes the text already in the file |
| Document.ValuesOfAppend | spdx/builder.py:343-386 | the values of a tag in two consecutive parts are those of each part in order |
| Document.TagEach | spdx/builder.py:361-362 | one line with the tag per value, in order |
| Document.ValuesOfTagEach | spdx/builder.py:361-362 | reading the tag back gives the values; other tags see nothing |
| Document.OutputSPDX | spdx/builder.py:330-389 | the written lines are the creation block, the package block and each file's block in order |
| Document.WriteFileBlock | spdx/builder.py:371-386 | the lines written for one file are its block |
| Document.DocumentValues | spdx/builder.py:343-386 | reading a tag of the document reads it in each block in turn |
| Document.CreationAbsent | spdx/builder.py:343-351 | the creation block holds only its own tags |
| Document.PackageHeadAbsent | spdx/builder.py:354-360 | the first package lines hold only their own tags |
| Document.PackageTailValues | spdx/builder.py:363-368 | the last package lines: declared license, NOASSERTION copyright, the DESCRIBES relationship |
| Document.PackageValues | spdx/builder.py:354-368 | the package identifiers sit between the first and the last package lines |
| Document.FileValues | spdx/builder.py:372-386 | reading a tag of a file block reads it in each part |
| Document.FileHeadValues | spdx/builder.py:372-375 | name, identifier and SHA1 checksum open the block |
| Document.ExtraChecksumValues | spdx/builder.py:376-379 | SHA256 and MD5 checksum lines appear exactly when those digests are non-empty |
| Document.InfoValues | spdx/builder.py:381-385 | NONE for a file without identifiers, else one line per identifier |
| Document.FileTailValues | spdx/builder.py:380-386 | one concluded-license line and one copyright line |
| Document.FileLinesAbsent | spdx/builder.py:372-386 | a file block holds no package-level tag |
| Document.FilesLinesAbsent | spdx/builder.py:371-386 | nor do the file blocks together |
| Document.DocumentPackageFilesValues | spdx/builder.py:343-386 | a tag the creation block does not use is read from the package and file blocks only |
| Document.DocumentPackageValues | spdx/builder.py:343-386 | a package-level tag is read from the package block only |
| Document.DocumentPackageLicenseInfo | spdx/builder.py:361-362 | one PackageLicenseInfoFromFiles line per package identifier, in order, and no other |
| Document.PackageLicenseInfoValues | spdx/builder.py:354-368 | the package block lists exactly the package identifiers |
| Document.DocumentCopyright | spdx/builder.py:364 | the package copyright is one line reading NOASSERTION whatever was configured |
| Document.PackageCopyrightValues | spdx/builder.py:363-368 | the package block has that one copyright line |
| Document.FileChecksumParts | spdx/builder.py:372-379 | only the first lines and the optional lines of a block carry checksums |
| Document.FileLastValues | spdx/builder.py:380-386 | the lines after the checksums, read together |
| Document.FileChecksums | spdx/builder.py:374-379 | SHA1 always, then SHA256 and MD5 exactly when computed |
| Document.FileInfoParts | spdx/builder.py:380-386 | only the identifier lines carry LicenseInfoInFile |
| Document.FileLicenseInfo | spdx/builder.py:381-385 | exactly one NONE line without identifiers, else one line per identifier in order |
| Document.Names | spdx/builder.py:371-372 | the file names, in order |
| Document.DocumentFileNames | spdx/builder.py:371-372 | the document names every file of the package once, in order |
| Document.PackageFileNameValues | spdx/builder.py:354-368 | the package block names no file |
| Document.FileLinesName | spdx/builder.py:372 | each file block names its file once |
| Document.FilesLinesNames | spdx/builder.py:371-372 | the file blocks name the files in order |
| CMake.ParseTargetType | cmakefileapijson.py:174-188 | a known spelling gives its type; UNKNOWN iff the text is none of the six spellings |
| CMake.ParseTypeName | cmakefileapi.py:68-75 | parsing each type's own spelling gives that type back |
| CMake.NonEmptyArtifacts | cmakefileapijson.py:146-151 | the kept artifact paths are exactly the non-empty ones |
| CMake.NonEmptyArtifactsInOrder | cmakefileapijson.py:146-151 | every non-empty path is kept once, in its original order, and no empty one |
| CMake.NonEmptyArtifactsKeepsAll | cmakefileapijson.py:148-151 | a list without empty paths is kept whole and in order |
| Sbom.LinkedArtifact | sbom.py:42-55 | the artifact of the first target with the dependency's id that is a static or object library with exactly one artifact; None iff there is none |
| Sbom.LinkedArtifactFirst | sbom.py:42-55 | the first such target decides, whatever follows |
| Sbom.SourceEdges | sbom.py:33-36 | one GENERATED_FROM edge from `./artifact` per source, in order |
| Sbom.LinkEdges | sbom.py:40-55 | at most one STATIC_LINK edge from `./artifact` per dependency |
| Sbom.LinkEdgesInOrder | sbom.py:40-55 | one STATIC_LINK edge per dependency that links in a library, in dependency order, from `./artifact` to `./` plus that library's artifact, and no other edge |
| Sbom.LinkEdgesComplete | sbom.py:40-55 | every dependency that links in a library gives its edge |
| Sbom.TargetRelationships | sbom.py:25-55 | the edges one target contributes, skipping a target without exactly one artifact |
| Sbom.LinkDependency | sbom.py:42-55 | the search for a dependency's target stops at the first that qualifies |
| Sbom.GetCmakeRelationships | sbom.py:11-56 | the loop collects the edges of every target of the first configuration, in order |
| Sbom.EdgesOfSnoc | sbom.py:24-36 | each target's edges follow those of the targets before it |
| Sbom.SourceEdgesSnoc | sbom.py:34-36 | each source's edge follows those of the sources before it |
| Sbom.LinkEdgesSnoc | sbom.py:40-55 | each dependency's edge follows those of the dependencies before it |
| Sbom.EdgesOfSound | sbom.py:24-56 | every edge comes from some target |
| Sbom.EdgesOfComplete | sbom.py:24-56 | every edge of every target is returned |
| Sbom.OnlyFirstConfiguration | sbom.py:24 | configurations after the first do not affect the result |
| Sbom.TargetEdgesShape | sbom.py:28-55 | GENERATED_FROM edges first, one per source in order, then at most one STATIC_LINK edge per dependency; none for an object library |
| Sbom.OtherTargetsContributeNothing | sbom.py:28-32 | shared and module libraries, utilities, unknown targets and targets without exactly one artifact give no edge |
| Sbom.UnknownDependency | sbom.py:42-45 | a dependency naming no target gives no edge |
| Sbom.EdgeKinds | sbom.py:35 | every edge is GENERATED_FROM or STATIC_LINK |
| Sbom.GeneratedFromSound | sbom.py:28-36 | every GENERATED_FROM edge joins a qualifying target's artifact to one of its sources |
| Sbom.GeneratedFromComplete | sbom.py:28-36 | every source of a qualifying target gets its GENERATED_FROM edge |
| Sbom.LinkEdgesSound | sbom.py:40-55 | a dependency edge names the artifact of a library the dependency links in |
| Sbom.TargetStaticLinkSound | sbom.py:39-55 | a STATIC_LINK edge comes from an executable or static library and one of its dependencies |
| Sbom.StaticLinkSound | sbom.py:39-55 | every STATIC_LINK edge joins an executable's or static library's artifact to that of a static or object library it depends on |
| Sbom.StaticLinkComplete | sbom.py:39-55 | every dependency of a qualifying executable or static library that links in a library gives its STATIC_LINK edge in the result |
| Relationships.FindFileID | spdx/relationships.py:40-45 | the identifier of the first file with the name; None iff no file has it |
| Relationships.FindFirst | spdx/relationships.py:40-42 | the first file with the name decides |
| Relationships.ResolveRelationshipID | spdx/relationships.py:5-45 | the path is reported as a build path iff it starts with `./` or `.\`; a build path is looked up verbatim in the build package; a source path leaving the source root resolves to nothing; any other is looked up as `./` plus its relative path in the source package |
| Relationships.EscapingPathIgnoresFiles | spdx/relationships.py:30-36 | a source path outside the root is unresolvable whatever either package holds |
| Relationships.EdgeLines | spdx/relationships.py:63-74 | at most one line per edge, and it is a relationship line |
| Relationships.EdgeLine | spdx/relationships.py:63-74 | a line iff both ends resolve to a non-empty identifier; source ends prefixed `DocumentRef-sources:`, build ends bare, the kind unchanged |
| Relationships.BuildEdgeWritten | spdx/relationships.py:22-74 | an edge between two listed build files gives their bare identifiers joined by the kind |
| Relationships.RelationshipLines | spdx/relationships.py:62-74 | no more lines than edges |
| Relationships.RelationshipLinesSnoc | spdx/relationships.py:62-74 | each edge's line follows those of the edges before it |
| Relationships.RelationshipLinesTagged | spdx/relationships.py:74 | every appended line is a relationship line |
| Relationships.WriteEdge | spdx/relationships.py:63-74 | the line written for one edge |
| Relationships.OutputSPDXRelationships | spdx/relationships.py:47-79 | the document afterwards is the document before, followed by the edges' lines in edge order |
| Relationships.AppendOnly | spdx/relationships.py:61 | appending leaves what the document held unchanged, as lines and as text |

## Left out

- File and directory I/O is left out: opening, reading, writing, the file modes, and the `OSError` handlers that print and return False. `outputSPDX` returns the lines it would write. `outputSPDXRelationships` takes the document so far and returns it extended.
- `os.walk` is a parameter. `getAllPaths` takes the list of paths the walk yields, already joined to their directory.
- `os.path.relpath` is a parameter. It depends on the working directory and on path normalisation.
- Hashing (`getHashes`) is a parameter: three functions from a file's bytes to a hex digest.
- The timestamp written on the `Created:` line is a parameter.
- Decoding a file as text is an input. A file is the lines Python would yield plus a flag saying decoding failed after them. The `UnicodeDecodeError` handler then yields None.
- Diagnostics printed by the source are left out, because they do not affect any result.
- `makeSPDX`, `makeCmakeSpdx`, `main.py` and `makedot.py` are orchestration and CLI. They are not part of this model, and neither is JSON loading beyond `parseTargetType` and the artifact filter. `outputSPDXRelationships` takes the two packages as parameters because the source never passes it packages: `makeSPDX` returns the boolean result of `outputSPDX` (spdx/builder.py:405), `makeCmakeSpdx` passes that boolean as `srcPkg` and `buildPkg` (sbom.py:72, 106, 113), and so reading `pkg.files` (spdx/relationships.py:40) raises an uncaught AttributeError as soon as there is one edge.
- BuilderConfig's `skipScanDirs` and `extRefs` are read by no modelled operation. `extRefs` is not a field here.
- The records are values, not mutable objects. The source only fills in a fresh object and then reads it, so no aliasing is lost.
- A configuration target whose JSON failed to load (`target` is None) is not modelled. The source would fail on it with an AttributeError.
- Sbom.GetCmakeRelationships: requires at least one configuration. The source raises IndexError on an empty list.
- Licenses.SplitExpression: its ensures states sortedness, non-emptiness and that no identifier holds a space or grouping mark. The exact identifiers are stated by SplitChainExpression for any expression that becomes a chain of identifiers and operators once parentheses and `+` are removed. Text that does not, such as an operator word without a space on one side or doubled spaces, is described only by the definition.
- Licenses.ReplaceOperators: its ensures states only that the text does not grow and gains no character. What it replaces is stated by ReplaceOperatorsChain for chains of identifiers and operators, not for arbitrary text.
- Paths follow POSIX `os.path.join`: `Strings.JoinDot` puts `./` in front of a relative path. Windows separators are not modelled, so on Windows the source would name an artifact `.\lib.a` where the model has `./lib.a`. `resolveRelationshipID` still accepts the `.\` and `..\` prefixes.
- File names are Dafny strings of Unicode scalar values. A name that `os.walk` returns with lone surrogates (Python's surrogateescape for undecodable bytes) cannot be represented.
