# Project generator from Markdown — a Dafny model

The repository turns a Markdown description of a Java project into files on
disk. Four generator variants are modelled:

- `project_structure_generator_22`, `_v5` and `_v2` read the fenced tree diagram
  (`├──`, `└──`, `│`) of a Markdown file. They build a forest of folders and
  files from it, and create that forest below an output directory. Each new
  file gets a template chosen by its extension.
- `project_structure_generator_23` cuts a document into `#### path` sections.
  It records the first code block of each section under its path, and writes
  each recorded block to a file.

`IntelliJLineCounter` walks a directory tree. It counts the folders and files
it visits, and the lines of IntelliJ project files, skipping `target` folders.

## Modules

- `JavaText` (`text.dfy`) — the `java.lang.String` operations the code relies
  on: `trim`, `startsWith`/`endsWith`/`contains`, `indexOf`/`lastIndexOf`,
  and the regex class `\s`.
- `Tree` (`tree.dfy`) — `StructureItem` as `Node`, and `isFile`. It also holds
  the stack-based builder of `parseStructureFromMarkdown`, as a pure fold
  (`Build`), plus `countTotalItems` and a renderer (`Render`) used to state
  the builder's round trip.
- `Scan` (`scan.dfy`) — the line loop shared by the three diagram
  generators. It skips blank lines, toggles on fences, and keeps only the
  structure lines inside a block. It is parameterised by a `Dialect`: the
  variant's `isStructureLine`, `getIndentLevel` and `extractItemName`.
  `ParseStructure` is the loop itself, proved equal to the functional
  `Parse`.
- `Indent` (`indent.dfy`) — the weighted `getIndentLevel` of `_22` and `v5`.
- `Generator22`, `GeneratorV5`, `GeneratorV2` — each variant's line
  functions. The regular expressions are modelled by their match semantics,
  including the backtracking of greedy and lazy groups where it decides the
  result.
- `Diagram`, `Diagram22`, `DiagramV5`, `DiagramV2` — a printer of tree
  diagrams and, per variant, the proof that parsing a printed diagram gives
  the forest back.
- `Paths` — the parts of `java.nio.file.Path` used: `resolve`, `getParent`,
  `getFileName`.
- `Content` — the choice of template: the suffix dispatch of
  `generateBasicContent`, the class kind and the package walk of
  `generateJavaContent`. Template texts are abstract `Stub` values.
- `Materialize` — `generateStructureRecursively`, `createFile` and
  `Files.createDirectories` over an abstract file system
  (`map<Path, Dir | File(Stub)>`). A set of refused paths stands for
  operating-system failures.
- `Sections` — `parseAndCreateFiles`, `extractCodeContent` and `createFile`
  of `_23`.
- `LineCounter` — `IntelliJLineCounter` over an abstract directory tree.

Two behaviours of the code worth knowing:

- `.gitignore` counts as a folder, not a file. `isFile` requires the last `.`
  to come after the first character.
- `v5`'s fallback pattern in `extractItemName` is reachable. A line of a lone
  `│` becomes an item named `│`.

## Model

| member | source | states |
|---|---|---|
| Tree.IsFileAsWritten | src/test/main/java/utils/project/org/project_structure_generator_22.java:348-353 | The model's `IsFile` is the three-part test as the code writes it (`contains(".")`, last dot after index 0 and before the end); `v5` and `v2` carry the same method. |
| Tree.IsFileCharacterisation | src/test/main/java/utils/project/org/project_structure_generator_22.java:348-353 | A name is a file exactly when some dot strictly inside it has no later dot. |
| Tree.IsDirectoryExamples | src/test/main/java/utils/project/org/project_structure_generator_22.java:348-353 | `.gitignore`, `Makefile`, `foo.` and `book-service` are treated as folders. |
| Tree.IsFileExamples | src/test/main/java/utils/project/org/project_structure_generator_22.java:348-353 | `README.md` and `pom.xml` are files. |
| Tree.DotfileIsDirectory | src/test/main/java/utils/project/org/project_structure_generator_22.java:348-353 | A name whose only dot is its first character is a folder. |
| Tree.Build | src/test/main/java/utils/project/org/project_structure_generator_22.java:93-110 | The built forest lists the accepted names in line order (pre-order), has one item per accepted line, and marks an item as a file exactly when its name passes `isFile`, files having no children. |
| Tree.CountIsNames | src/test/main/java/utils/project/org/project_structure_generator_22.java:147-153 | `countTotalItems` equals the number of names in the forest, so it equals the number of accepted lines. |
| Tree.FeedAtLevel | src/test/main/java/utils/project/org/project_structure_generator_22.java:94-97 | A line at level `d` sees the same stack whether or not the frames at level `d` or deeper were popped beforehand. |
| Tree.BuildRender | src/test/main/java/utils/project/org/project_structure_generator_22.java:93-110 | Building from the lines of a well-formed forest, each child one step deeper than its folder, gives that forest back: equal levels become siblings, a deeper line becomes a child. |
| Tree.BuildNestedExample | src/test/main/java/utils/project/org/project_structure_generator_22.java:93-110 | Lines `a`, `b`, `c.txt` at levels 0, 1, 2 nest into one chain. |
| Tree.BuildSiblingExample | src/test/main/java/utils/project/org/project_structure_generator_22.java:93-110 | A file after a folder at the same level is the folder's sibling, not its child. |
| Tree.BuildUnderRoot | src/test/main/java/utils/project/org/project_structure_generator_22.java:93-110 | A root folder line at level 0 followed by a deeper forest builds one root folder holding that forest. |
| Scan.LineEntry | src/test/main/java/utils/project/org/project_structure_generator_22.java:61-91 | A line contributes exactly when it is non-blank, not a fence, inside a block, a structure line, and named by a non-empty name; it then contributes that name at the variant's indent level. |
| Scan.Parse | src/test/main/java/utils/project/org/project_structure_generator_22.java:54-114 | The parsed forest holds the accepted names in order, counts one item per accepted line, and is well formed. |
| Scan.ParseStructure | src/test/main/java/utils/project/org/project_structure_generator_22.java:54-114 | The single-pass loop with a fence flag and an explicit stack computes `Parse`. |
| Scan.FenceToggles | src/test/main/java/utils/project/org/project_structure_generator_22.java:67-71 | A line whose trimmed text starts with three backquotes flips the inside/outside state and contributes nothing. |
| Scan.InsideLineAccepted | src/test/main/java/utils/project/org/project_structure_generator_22.java:78-91 | A structural, named line inside an open block is accepted with the variant's level, and the block stays open. |
| Scan.OutsideProseIrrelevant | src/test/main/java/utils/project/org/project_structure_generator_22.java:73-76 | Deleting fence-free lines that lie outside any block does not change the parsed forest. |
| Scan.ParseFenced | src/test/main/java/utils/project/org/project_structure_generator_22.java:54-114 | A document made of one fenced block is parsed from the block's own lines alone. |
| Indent.IndentByCounts | src/test/main/java/utils/project/org/project_structure_generator_22.java:229-251 | The level is half, rounded down, of the leading run's weight: one per space, four per tab, two per tree glyph. |
| Indent.IndentIgnoresTail | src/test/main/java/utils/project/org/project_structure_generator_22.java:229-251 | Whatever follows the first character that is not a space, tab or glyph has no effect on the level. |
| Indent.GetIndentLevel | src/test/main/java/utils/project/org/project_structure_generator_v5.java:210-232 | The character loop computes the level defined by the run's weight. |
| Indent.IndentExamples | src/test/main/java/utils/project/org/project_structure_generator_22.java:229-251 | Levels of typical lines: `src/` is 0, `├── src/` is 3, `│   ├── main/` is 6, a tab is 2. |
| Generator22.ValidateAndCleanName | src/test/main/java/utils/project/org/project_structure_generator_22.java:290-325 | A name is returned exactly when its trimmed form is valid; what is returned is the trimmed name, made of name characters only. |
| Generator22.ValidateFixedPoint | src/test/main/java/utils/project/org/project_structure_generator_22.java:290-325 | Validating an accepted name again returns it unchanged. |
| Generator22.PaddedNameAccepted | src/test/main/java/utils/project/org/project_structure_generator_22.java:290-325 | Blanks around a valid name are removed and the name is accepted. |
| Generator22.MainJavaRejected | src/test/main/java/utils/project/org/project_structure_generator_22.java:309-315 | `Main.java` looks like a sentence (upper case, then lower case) and is rejected. |
| Generator22.HiddenNameAccepted | src/test/main/java/utils/project/org/project_structure_generator_22.java:317-322 | A dot-prefixed name such as `.idea` is accepted as it is. |
| Generator22.SpaceInNameRejected | src/test/main/java/utils/project/org/project_structure_generator_22.java:309-315 | A name with an inner space is rejected. |
| Generator22.ExtractItemName | src/test/main/java/utils/project/org/project_structure_generator_22.java:253-288 | Every extracted name is valid and already trimmed. |
| Generator22.ExtractTreeLine | src/test/main/java/utils/project/org/project_structure_generator_22.java:190-288 | A printed diagram line of a valid name is a structure line and yields that name. |
| Generator22.RootFolderLine | src/test/main/java/utils/project/org/project_structure_generator_22.java:253-261 | An unindented `name/` line is a structure line naming the root folder `name`, at level 0. |
| Generator22.ColumnZeroFolderNamesNothing | src/test/main/java/utils/project/org/project_structure_generator_22.java:253-260 | A connector line at column zero that ends in `/` takes the root-folder branch. The name tried there starts with the connector, so the line names nothing, whatever follows the connector. |
| Generator22.ColumnZeroFolderDropped | src/test/main/java/utils/project/org/project_structure_generator_22.java:190-260 | With a valid name, such a line (`├── src/` unindented) still passes `isStructureLine`. Inside a block it is read and contributes no entry. |
| Generator22.ConnectedLineName | src/test/main/java/utils/project/org/project_structure_generator_22.java:262-283 | An indented connector line is named by the text after its first `├──` (else `└──`). This needs no `├` after the connector and nothing after it that ends a line. |
| Generator22.NameBeforeComment | src/test/main/java/utils/project/org/project_structure_generator_22.java:271-281 | After the connector, `pre # c` is cut at its first `#` and leaves `pre`, whatever `c` holds. |
| Generator22.CommentAfterName | src/test/main/java/utils/project/org/project_structure_generator_22.java:271-283 | `├── name # comment` on an indented line names `name`. |
| Generator22.CommentAfterFolderRejected | src/test/main/java/utils/project/org/project_structure_generator_22.java:273-283 | `├── name/ # comment` on an indented line names nothing. Only a `/` at the very end is removed, before the comment is cut, so `name/` is what gets validated, and it is rejected. |
| GeneratorV5.Strip | src/test/main/java/utils/project/org/project_structure_generator_v5.java:236-239 | Deleting glyphs and `\s` leaves none of them behind. |
| GeneratorV5.SymbolFallback | src/test/main/java/utils/project/org/project_structure_generator_v5.java:242-248 | The fallback group is a non-empty suffix of the line, free of line terminators. |
| GeneratorV5.CleanedName | src/test/main/java/utils/project/org/project_structure_generator_v5.java:234-256 | When deletion leaves text, the name is that text less at most one trailing `/`, and holds no glyph or blank. |
| GeneratorV5.SpaceDeletedFromName | src/test/main/java/utils/project/org/project_structure_generator_v5.java:236-239 | Inner blanks are deleted, not rejected: a file line naming `a b` yields `ab`. |
| GeneratorV5.BarOnlyLineNamesBar | src/test/main/java/utils/project/org/project_structure_generator_v5.java:242-248 | A line holding only `│` falls through to the fallback pattern and is named `│`. |
| GeneratorV5.BarThenBlankNamesNothing | src/test/main/java/utils/project/org/project_structure_generator_v5.java:242-255 | `│` followed by a blank yields no name. |
| GeneratorV5.DashLineSkipped | src/test/main/java/utils/project/org/project_structure_generator_v5.java:199 | A trimmed line starting with `-` and holding no `─` is not a structure line. |
| GeneratorV5.IndentedProseAccepted | src/test/main/java/utils/project/org/project_structure_generator_v5.java:207 | Any indented line that escapes the skip list is a structure line, prose included. |
| GeneratorV2.IndentV2 | src/test/main/java/utils/project/org/project_structure_generator_v2.java:196-206 | The level is the number of leading spaces; a tab or any other character ends the count. |
| GeneratorV2.FolderGroup | src/test/main/java/utils/project/org/project_structure_generator_v2.java:10-11 | The group is found exactly when the folder pattern matches, and is a non-empty line-terminator-free string. |
| GeneratorV2.FileImpliesFolder | src/test/main/java/utils/project/org/project_structure_generator_v2.java:12-13 | Whenever a file pattern matches, the folder pattern with the same connector matches too: the last two branches of `extractItemName` are dead. |
| GeneratorV2.StructureLineIffName | src/test/main/java/utils/project/org/project_structure_generator_v2.java:189-231 | A line is a structure line exactly when a name is extracted from it. |
| GeneratorV2.FolderGroupOfName | src/test/main/java/utils/project/org/project_structure_generator_v2.java:10-11 | After the connector and blanks, a name followed by an optional `/` and blanks is captured exactly; the slash is taken off at most once. |
| GeneratorV2.BlankAfterConnector | src/test/main/java/utils/project/org/project_structure_generator_v2.java:10-11 | A connector followed only by blanks names the last blank: the matcher backs off `\s*`. |
| GeneratorV2.BarLineIgnored | src/test/main/java/utils/project/org/project_structure_generator_v2.java:189-194 | A line whose first significant character is `│` matches none of the four patterns. |
| Diagram22.DiagramRoundTrip | src/test/main/java/utils/project/org/project_structure_generator_22.java:54-114 | Printing a well-formed forest of valid names as a fenced diagram and parsing it with `_22` gives the forest back. |
| DiagramV5.DiagramRoundTripV5 | src/test/main/java/utils/project/org/project_structure_generator_v5.java:54-114 | The same round trip for `v5`, for names free of glyphs, blanks and a trailing `/`. |
| DiagramV2.DiagramRoundTripV2 | src/test/main/java/utils/project/org/project_structure_generator_v2.java:53-113 | The same round trip for `v2`, whose level is the count of leading spaces. |
| Paths.Parent | src/test/main/java/utils/project/org/project_structure_generator_22.java:357-360 | `getParent` is absent exactly for the root, the empty path and a one-segment relative path; otherwise it drops the last segment. |
| Paths.ResolveParent | src/test/main/java/utils/project/org/project_structure_generator_22.java:118 | The parent of `dir.resolve(name)` is `dir`, and its file name is `name`. |
| Content.BasicContent | src/test/main/java/utils/project/org/project_structure_generator_22.java:380-409 | A Java source gets a Java class and only a Java source does; the `pom.xml` template is never chosen. |
| Content.DispatchIsExtensionTable | src/test/main/java/utils/project/org/project_structure_generator_22.java:380-409 | The ordered suffix tests equal a table keyed by the extension; only `.xml` and `pom.xml` compete, and `.xml` wins. |
| Content.BasicContentV2 | src/test/main/java/utils/project/org/project_structure_generator_v2.java:260-278 | A Java source gets a one-line class and only a Java source does; the `pom.xml` template is never chosen. |
| Content.DispatchIsExtensionTableV2 | src/test/main/java/utils/project/org/project_structure_generator_v2.java:260-278 | The same for `v2`'s seven rules. |
| Content.PomGetsXmlStub | src/test/main/java/utils/project/org/project_structure_generator_22.java:383-392 | `pom.xml` receives the generic XML stub in every variant. |
| Content.KindPrecedence | src/test/main/java/utils/project/org/project_structure_generator_22.java:438-483 | A `Test` suffix wins over everything, `Exception` over the interface rules, and any other name starting with `I` is an interface. |
| Content.NearestJava | src/test/main/java/utils/project/org/project_structure_generator_22.java:422-430 | The walk stops at the nearest ancestor named `java`. |
| Content.JavaPackageIsNearestJava | src/test/main/java/utils/project/org/project_structure_generator_22.java:414-435 | The package is the folders strictly between the nearest `java` ancestor and the file, and none when there is no such ancestor. |
| Content.CrashExactly | src/test/main/java/utils/project/org/project_structure_generator_22.java:422-430 | The walk as written fails exactly on an absolute path with no `java` ancestor; elsewhere it agrees with the corrected walk. |
| Content.AbsolutePathCrashes | src/test/main/java/utils/project/org/project_structure_generator_22.java:422-430 | `/tmp/Foo.java` makes the walk as written fail. |
| Content.PackageExample | src/test/main/java/utils/project/org/project_structure_generator_22.java:414-435 | A source below `src/main/java/com/acme` gets package `com.acme`. |
| Materialize.MakeDirsFrom | src/test/main/java/utils/project/org/project_structure_generator_22.java:126-127 | Making directories adds only directories. It completes exactly when no file blocks the path and no creation is refused, and afterwards every ancestor on the way is a directory. |
| Materialize.CreateFile | src/test/main/java/utils/project/org/project_structure_generator_22.java:355-378 | `createFile` only adds entries: directories, or new files holding their templates. |
| Materialize.Generate | src/test/main/java/utils/project/org/project_structure_generator_22.java:116-137 | Generating a forest only adds entries: directories, or new files holding their templates; nothing already there is changed. |
| Materialize.GenerateSettles | src/test/main/java/utils/project/org/project_structure_generator_22.java:116-137 | A completed run leaves every item of the forest in place. |
| Materialize.GenerateIdempotent | src/test/main/java/utils/project/org/project_structure_generator_22.java:116-137 | Running a generator again over what its completed run left changes nothing. |
| Materialize.RefusedFileSwallowed | src/test/main/java/utils/project/org/project_structure_generator_v5.java:273-287 | In `_22` and `v5` a file whose creation is refused is skipped, and its later siblings are still generated. |
| Materialize.RefusedFileAborts | src/test/main/java/utils/project/org/project_structure_generator_v2.java:240-258 | In `v2` the same refusal ends the run, and no later sibling is generated. |
| Materialize.NewFileWritten | src/test/main/java/utils/project/org/project_structure_generator_22.java:362-372 | A new file, below an existing directory, receives exactly its template. |
| Materialize.NewFileWrittenV2 | src/test/main/java/utils/project/org/project_structure_generator_v2.java:248-256 | In `v2` a new file's template depends on its name alone. |
| Materialize.ExistingFileKept | src/test/main/java/utils/project/org/project_structure_generator_22.java:362-363 | An existing file is never rewritten, whatever it holds. |
| Materialize.AbsoluteJavaFileStopsRun | src/test/main/java/utils/project/org/project_structure_generator_22.java:364-373 | With the walk as written, `/tmp/Foo.java` is created empty and the run ends there. With the corrected walk, the run completes. |
| Sections.NextCut | src/test/main/java/utils/project/org/project_structure_generator_23.java:91 | The next cut is the first header position from the start index on, or the end of the document. |
| Sections.SplitSectionsShape | src/test/main/java/utils/project/org/project_structure_generator_23.java:91 | The sections put back together are the document; every section but the first starts with a header, and none holds another header. |
| Sections.FirstLine | src/test/main/java/utils/project/org/project_structure_generator_23.java:94-97 | The first line is a prefix of the section and holds no line feed. It stops at the first line feed, or at the end of the section when there is none. |
| Sections.HeaderCaptureSound | src/test/main/java/utils/project/org/project_structure_generator_23.java:10 | What the header capture returns is a real match: `####`, a blank run, then the group. |
| Sections.HeaderCaptureComplete | src/test/main/java/utils/project/org/project_structure_generator_23.java:97-98 | Every line the header pattern matches is captured, and the capture is the shortest group of all matches. |
| Sections.HeaderOfTitle | src/test/main/java/utils/project/org/project_structure_generator_23.java:97-100 | `#### title` names `title`. |
| Sections.FenceAt | src/test/main/java/utils/project/org/project_structure_generator_23.java:11 | A block found at an index starts with a fence mark there and ends at a fence mark, and its body lies between the two. The body is lazy: no fence mark starts inside it. |
| Sections.FirstFenceBody | src/test/main/java/utils/project/org/project_structure_generator_23.java:115-116 | The block `find()` returns ends at a fence mark, and no fence mark starts inside its body. |
| Sections.ExtractCode | src/test/main/java/utils/project/org/project_structure_generator_23.java:114-120 | The extracted code is trimmed and holds no fence mark. A section without any fence mark gives the empty string. |
| Sections.LaidOutCode | src/test/main/java/utils/project/org/project_structure_generator_23.java:114-120 | Take a section laid out as `#### title`, a line feed, a fence mark, a word tag, a line feed, the body and a fence mark. If the title holds no backquote and the body holds no backquote and does not start with a blank, the code is the body, trimmed. |
| Sections.InnerFenceCutsBody | src/test/main/java/utils/project/org/project_structure_generator_23.java:114-120 | When the intended body holds a fence mark, the code is only what comes before that mark, trimmed. The same conditions apply to the part before the mark. |
| Sections.LaidOutRecord | src/test/main/java/utils/project/org/project_structure_generator_23.java:94-105 | Take a section laid out as above, with a non-empty title that does not start with a blank. It records its trimmed title with its trimmed body, unless the body is blank. |
| Sections.SectionRecord | src/test/main/java/utils/project/org/project_structure_generator_23.java:94-105 | A section records something exactly when its first line matches the header pattern and its code is not empty. A recorded block is never empty, and its path and block are trimmed. |
| Sections.NoHeaderNoRecord | src/test/main/java/utils/project/org/project_structure_generator_23.java:94-98 | A section that does not open with `####` and a blank records nothing, whatever block it holds. The text before the first header is such a section. |
| Sections.CollectKeys | src/test/main/java/utils/project/org/project_structure_generator_23.java:103-105 | A path is in the map exactly when some section records it. |
| Sections.CollectLastWins | src/test/main/java/utils/project/org/project_structure_generator_23.java:103-105 | When two sections name the same path, the later block wins. |
| Sections.CollectUntouched | src/test/main/java/utils/project/org/project_structure_generator_23.java:103-105 | A path that no section names keeps what it had. |
| Sections.ParsedBlocks | src/test/main/java/utils/project/org/project_structure_generator_23.java:87-106 | Every block recorded from a document is non-empty and trimmed. |
| Sections.WriteLastWins | src/test/main/java/utils/project/org/project_structure_generator_23.java:132 | A write replaces whatever the location held, unless a later write to the same location brings another block. |
| Sections.WriteEveryFile | src/test/main/java/utils/project/org/project_structure_generator_23.java:108-111 | When no two recorded paths clean to the same location, every location holds exactly its block afterwards, whatever the iteration order. |
| Sections.RootLabelDropped | src/test/main/java/utils/project/org/project_structure_generator_23.java:124 | A leading `(Root)` label is removed and the rest trimmed. |
| LineCounter.Scan | src/main/java/org/project/utils/IntelliJLineCounter.java:28-43 | A `target` folder adds nothing. A file counts as one file and no folder. An unreadable file, or one that is not a project file, adds no lines. |
| LineCounter.ScanIsTally | src/main/java/org/project/utils/IntelliJLineCounter.java:28-43 | The counters are those of the entries the walk visits: folders entered, files visited, lines of the project files among them. |
| LineCounter.NothingVisitedInTarget | src/main/java/org/project/utils/IntelliJLineCounter.java:29-31 | No `target` folder, and nothing below one, is visited. |
| LineCounter.ScanAllPermutation | src/main/java/org/project/utils/IntelliJLineCounter.java:26-44 | The order in which a folder's entries are walked does not change the counters. |
| LineCounter.NoProjectFilesNoLines | src/main/java/org/project/utils/IntelliJLineCounter.java:39-41 | Without any project file among the visited entries, no line is counted. |
| LineCounter.FileNamedTarget | src/main/java/org/project/utils/IntelliJLineCounter.java:37-41 | A file named `target` is counted like any other file and is not skipped. |
| LineCounter.ProjectFileByExtension | src/main/java/org/project/utils/IntelliJLineCounter.java:55-63 | A project file is exactly one whose extension is one of the seven listed. |

## Left out

- Command-line handling, `main`, console output, `getRelativePath` and the
  final item count message: these are input and output only.
- Reading the Markdown file (`readAllLines`) and its charset: the model starts
  from the list of lines (`_22`, `v5`, `v2`) or the document text (`_23`).
- `lookAheadForStructure` of `_22`: no caller uses it.
- The unused `FOLDER_PATTERN`, `FILE_PATTERN` and `SIMPLE_ITEM_PATTERN` fields of `_22`
  and `v5`.
- Template texts (`generatePomXml`, `generateBuildGradle`,
  `generateHtmlContent` and the class bodies): they are abstract `Stub` values.
  The model keeps which template is chosen, the class name, the class kind
  and the package.
- `_23`'s `generateProject`, `createDirectoryStructure`, `createAdditionalFiles`
  and the files they write (`.iml`, `workspace.xml`, README, Docker and nginx
  files): these are fixed lists of directories and constant texts.
- Sections.WriteAll: a failing `createDirectories` or `writeString` in `_23`
  is not modelled. The store is keyed by the cleaned path string, not
  resolved against a root.
- Materialize.CreateFile: a failure of `Files.write` after `createFile`
  succeeded is not modelled separately. Operating-system refusals are a set
  of refused paths.
- Paths.Resolve: a name is resolved as one segment. A name holding `/` or
  `..` is not normalised.
- `IntelliJLineCounter`:
  - the line count of a file is given (`BufferedReader.lines()` is not
    modelled), and `None` stands for an unreadable file;
  - `visitFileFailed` and an `UncheckedIOException` during reading are not
    modelled;
  - the atomic counters are plain numbers;
  - the walk order of the file system is not modelled (`ScanAllPermutation`
    shows it does not matter).
- `_23`'s `HashMap` iteration order is a parameter (`order`).
- Generator22.ConnectedLineName: stated only for lines with no `├` after
  the connector. When a `└──` line has a later `├──`, the model picks that
  later one as the code does, but no lemma states the resulting name.
- Sections.LaidOutCode, Sections.LaidOutRecord, Sections.InnerFenceCutsBody:
  stated only for bodies free of backquotes that do not start with a blank.
  For other bodies, `ExtractCode` still computes what the pattern matches,
  including the back-off of `\s*`. Only its own contract is stated for them.

## Findings

| source | as written | input that shows it | evidently intended | confidence | as-written member | corrected member |
|---|---|---|---|---|---|---|
| src/test/main/java/utils/project/org/project_structure_generator_22.java:422-430 | The package walk calls `parent.getFileName().toString()` on every ancestor up to the file-system root. The root's file name is `null`, so with an absolute output directory and no `java` ancestor this throws a `NullPointerException`. `createFile` does not catch it, so the run stops with the file created empty. `v5` lines 332-340 do the same. | Output directory `/tmp` and a diagram holding `Foo.java`, that is the path `/tmp/Foo.java`. | The walk ends at the root like a missing parent, and the class gets no package. | not executed | Content.AbsolutePathCrashes | Content.JavaPackageIsNearestJava |
