# WsdlcIterator: the batch wsdl compiler driver, modelled in Dafny

`WsdlcIterator.main` runs the `wsdlc` compiler on every `.wsdl` file in one
directory. It writes each result to a jar in a second directory. In order, it:

1. checks the command line: `wsdldir <dir> jardir <dir>`, keywords compared ignoring case (exit 2 otherwise);
2. canonicalises both directories and checks that each exists and is a directory (exit 1 otherwise);
3. lists the wsdl directory through a filter that accepts names ending in `.wsdl` (exit 1 when the listing is null or empty);
4. re-checks that every listed name ends in `.wsdl` (exit 1 otherwise);
5. maps every name to a jar name by replacing `.wsdl` with `.apextest.jar`, and builds the jar paths and the wsdl paths as two parallel arrays;
6. deletes every jar path that already exists, ignoring the result of `delete()`;
7. loads one template group and compiles the files one by one in listing order; the first `Throwable` ends the run with exit 1, and a run where nothing throws ends normally (exit 0).

The model has three modules:

- `WsdlNames` (`wsdl_names.dfy`) holds the pure string logic:
  - the two suffix constants;
  - the filter `Accept`, a literal, case-sensitive suffix test;
  - `ReplaceAll`, Java's `String.replace(CharSequence, CharSequence)`, which replaces every non-overlapping occurrence from left to right;
  - `JarName`;
  - `EqualsIgnoreCase`, Java's per-character case-insensitive comparison;
  - `Join`, a directory joined with a file name.
- `WsdlcIterator` (`wsdlc_iterator.dfy`) holds the driver. The filesystem and the compiler are a `World` value of oracles:
  - the canonical path, existence and directory flag of each raw argument;
  - the filtered listing of a directory, which may be null;
  - the set of existing files;
  - whether deleting a path succeeds;
  - whether compiler call n throws.

  A run yields an `Outcome`: a trace of `Delete`, `LoadTemplates` and `Compile` events, the exit status, the reason the run ended, and the files left at the end. `Execute` is the run as a function. `Check` covers steps 1-4 and `Batch` covers steps 5-7. `Run` is `main` written imperatively: early returns for the exits, the re-check loop (`CheckListing`), a loop that fills the `jarFiles` and `wsdlPaths` arrays, the delete loop, and the compile loop that stops at the first throw. It has four loops, each its own method, proved against the specification functions. `Run` is proved equal to `Execute`.
- `IteratorProperties` (`iterator_properties.dfy`) states what a run promises, as lemmas about `Execute`:
  - the exit statuses of the checks, and that nothing happens before the checks pass;
  - which files the delete pass touches;
  - the order of events;
  - that compiles follow the listing, fail fast, and decide success.

`String.replace` replaces every occurrence of `.wsdl`, not only the trailing one: `"a.wsdl.wsdl"` maps to `"a.apextest.jar.apextest.jar"`, so two inputs can share a jar path (`JarNameCollision`). The code does not promise unique jar names.

## Model

| member | source | states |
|---|---|---|
| WsdlNames.EndsWith | src/main/java/com/sforce/ws/tools/WsdlcIterator.java:28 | definition, no contract: String.endsWith, the last characters equal the suffix |
| WsdlNames.Accept | src/main/java/com/sforce/ws/tools/WsdlcIterator.java:24-30 | definition, no contract: WsdlFilter.accept, false for null, otherwise endsWith(".wsdl") |
| WsdlNames.ReplaceAll | src/main/java/com/sforce/ws/tools/WsdlcIterator.java:96 | definition, no contract: String.replace, every non-overlapping occurrence replaced from left to right |
| WsdlNames.JarName | src/main/java/com/sforce/ws/tools/WsdlcIterator.java:96 | definition, no contract: the name with ".wsdl" replaced by ".apextest.jar" |
| WsdlNames.EqualsIgnoreCase | src/main/java/com/sforce/ws/tools/WsdlcIterator.java:47 | definition, no contract: String.equalsIgnoreCase, equal lengths and each character pair equal after upper or lower casing |
| WsdlNames.Join | src/main/java/com/sforce/ws/tools/WsdlcIterator.java:97-98 | definition, no contract: new File(dir, name) as the directory, "/" and the name |
| WsdlNames.AcceptIsSuffixTest | src/main/java/com/sforce/ws/tools/WsdlcIterator.java:24-30 | the filter accepts a name exactly when it is non-null and is some prefix followed by ".wsdl" |
| WsdlNames.AcceptExamples | src/main/java/com/sforce/ws/tools/WsdlcIterator.java:24-30 | the test is literal and case-sensitive: "A.wsdl", ".wsdl" and "a.wsdl.wsdl" pass; "A.WSDL", "a.wsdl.bak", "wsdl" and null do not |
| WsdlNames.EndsWithIsConcatenation | src/main/java/com/sforce/ws/tools/WsdlcIterator.java:28 | endsWith(suffix) holds exactly when the string is some prefix followed by the suffix |
| WsdlNames.FilterNames | src/main/java/com/sforce/ws/tools/WsdlcIterator.java:73 | a listing that honours the filter keeps every accepted entry as often as it occurs and drops every other entry |
| WsdlNames.ReplaceAllWithoutOccurrence | src/main/java/com/sforce/ws/tools/WsdlcIterator.java:96 | replacing a target that does not occur leaves the string unchanged |
| WsdlNames.ReplaceAllKeepsSuffix | src/main/java/com/sforce/ws/tools/WsdlcIterator.java:96 | when the target cannot overlap itself, a string ending in the target ends in the replacement after replace-all |
| WsdlNames.ReplaceAllLeavesNoOccurrence | src/main/java/com/sforce/ws/tools/WsdlcIterator.java:96 | when no occurrence of the target can straddle a replacement, none is left after replace-all |
| WsdlNames.ReplacedAfterCopies | src/main/java/com/sforce/ws/tools/WsdlcIterator.java:96 | when the target first occurs as the trailing one, replace-all swaps only that trailing occurrence |
| WsdlNames.SuffixesAreSeparated | src/main/java/com/sforce/ws/tools/WsdlcIterator.java:21-22 | ".wsdl" cannot overlap itself, and no ".wsdl" can be formed inside ".apextest.jar" or across its edges |
| WsdlNames.SuffixesExclusive | src/main/java/com/sforce/ws/tools/WsdlcIterator.java:21-22 | no name ends with both ".apextest.jar" and ".wsdl", so generated artifacts and inputs are always distinguishable |
| WsdlNames.JarNameOfWsdl | src/main/java/com/sforce/ws/tools/WsdlcIterator.java:95-96 | for a name ending in ".wsdl", the jar name ends in ".apextest.jar", is different from the name, and holds no ".wsdl" |
| WsdlNames.JarNameWithoutWsdl | src/main/java/com/sforce/ws/tools/WsdlcIterator.java:96 | a name containing no ".wsdl" maps to itself |
| WsdlNames.JarNameExample | src/main/java/com/sforce/ws/tools/WsdlcIterator.java:96 | "A.wsdl" maps to "A.apextest.jar" |
| WsdlNames.DoubledSuffixIsReplaced | src/main/java/com/sforce/ws/tools/WsdlcIterator.java:96 | every occurrence is replaced, not only the first or the last: "a.wsdl.wsdl" maps to "a.apextest.jar.apextest.jar" |
| WsdlNames.JarNameCollision | src/main/java/com/sforce/ws/tools/WsdlcIterator.java:96 | the mapping is not injective: "a.wsdl.wsdl" and "a.apextest.jar.wsdl" differ but have the same jar name |
| WsdlNames.EqualsIgnoreCaseOfKeyword | src/main/java/com/sforce/ws/tools/WsdlcIterator.java:47 | an argument matches a lower-case keyword ignoring case exactly when it has the same length and each character is one of the keyword letter's spellings |
| WsdlNames.KeywordExamples | src/main/java/com/sforce/ws/tools/WsdlcIterator.java:47 | "WSDLDIR" and "WsdlDir" match "wsdldir", and "JARDIR" matches "jardir"; "wsdl-dir" and "wsdldi" do not match "wsdldir", and "jar" and "wsdldi" do not match "jardir" |
| WsdlNames.JoinInjective | src/main/java/com/sforce/ws/tools/WsdlcIterator.java:97-98 | joining a directory with a plain file name loses nothing: equal paths mean the same directory and the same name |
| WsdlNames.JoinEndsWith | src/main/java/com/sforce/ws/tools/WsdlcIterator.java:97-98 | a path keeps the suffix of the file name it was joined from |
| WsdlcIterator.ArgsWellShaped | src/main/java/com/sforce/ws/tools/WsdlcIterator.java:43-50 | definition, no contract: four arguments, the first "wsdldir" and the third "jardir", ignoring case |
| WsdlcIterator.TemplateGroup | src/main/java/com/sforce/ws/tools/WsdlcIterator.java:110 | definition, no contract: the template directory with '$' as both delimiters |
| WsdlcIterator.JarPaths | src/main/java/com/sforce/ws/tools/WsdlcIterator.java:92-99 | definition, no contract: index k is the jar directory joined with the jar name of name k |
| WsdlcIterator.WsdlPaths | src/main/java/com/sforce/ws/tools/WsdlcIterator.java:92-99 | definition, no contract: index k is the wsdl directory joined with name k |
| WsdlcIterator.DeletePass | src/main/java/com/sforce/ws/tools/WsdlcIterator.java:101-108 | definition, no contract: over the first k jar paths, each existing one is deleted, and it is gone when its deletion succeeds |
| WsdlcIterator.CompileCalls | src/main/java/com/sforce/ws/tools/WsdlcIterator.java:112-115 | definition, no contract: the first count compile events, call k with wsdl path k, jar path k and the fixed arguments |
| WsdlcIterator.Batch | src/main/java/com/sforce/ws/tools/WsdlcIterator.java:88-120 | definition, no contract: the delete pass, one template load, then the compiles up to the first throw; exit 1 naming it, or exit 0 |
| WsdlcIterator.FirstNonWsdl | src/main/java/com/sforce/ws/tools/WsdlcIterator.java:79-86 | the index of the first listed name without ".wsdl": every earlier name has the suffix and this one does not, or the length when all have it |
| WsdlcIterator.FirstThrow | src/main/java/com/sforce/ws/tools/WsdlcIterator.java:112-115 | the first compiler call that throws: no earlier call throws, or n when none before n does |
| WsdlcIterator.CallCount | src/main/java/com/sforce/ws/tools/WsdlcIterator.java:112-120 | the loop makes calls up to and including the first one that throws, or all n calls |
| WsdlcIterator.Check | src/main/java/com/sforce/ws/tools/WsdlcIterator.java:43-86 | an accepted run has a non-empty listing whose names all end in ".wsdl"; a rejection exits 2 exactly for a usage error, otherwise 1, and is never a completion or a compile failure |
| WsdlcIterator.Execute | src/main/java/com/sforce/ws/tools/WsdlcIterator.java:36-121 | the exit status is always 0, 1 or 2 |
| WsdlcIterator.Run | src/main/java/com/sforce/ws/tools/WsdlcIterator.java:36-121 | main, with its early exits and its four loops (CheckListing, MapNames, DeleteStale, CompileAll), yields exactly the outcome Execute specifies |
| WsdlcIterator.CheckListing | src/main/java/com/sforce/ws/tools/WsdlcIterator.java:79-86 | the validation loop stops at the first name without ".wsdl"; every name before it has the suffix |
| WsdlcIterator.MapNames | src/main/java/com/sforce/ws/tools/WsdlcIterator.java:92-99 | two fresh arrays as long as the listing; index k holds the jar path of name k in the jar directory and the path of name k in the wsdl directory |
| WsdlcIterator.DeleteStale | src/main/java/com/sforce/ws/tools/WsdlcIterator.java:101-108 | the delete loop yields the events and the remaining files of the delete pass over all jar paths |
| WsdlcIterator.CompileAll | src/main/java/com/sforce/ws/tools/WsdlcIterator.java:110-120 | the compile loop makes the calls up to the first throw; it exits 1 naming that call, or exits 0 when none throws |
| IteratorProperties.DeletePassTargets | src/main/java/com/sforce/ws/tools/WsdlcIterator.java:101-108 | after k steps, only the first k jar paths are deleted, each exactly when it existed; a file is gone exactly when it is one of them and its deletion succeeded |
| IteratorProperties.DeletedPathsEndWith | src/main/java/com/sforce/ws/tools/WsdlcIterator.java:101-108 | when every jar path ends with a suffix, every deleted path does too |
| IteratorProperties.CheckAcceptsValidated | src/main/java/com/sforce/ws/tools/WsdlcIterator.java:43-86 | the checks accept exactly the runs whose arguments, directories and listing are all valid, and then pass on the canonical directories and the listing |
| IteratorProperties.RunIsBatchOrAbort | src/main/java/com/sforce/ws/tools/WsdlcIterator.java:36-121 | an accepted run is the batch over its listing; a rejected run has an empty trace, leaves the files alone, and carries the rejection's status |
| IteratorProperties.BatchTrace | src/main/java/com/sforce/ws/tools/WsdlcIterator.java:101-115 | a batch trace is the deletions, then one template load, then only compiles, each using that template group |
| IteratorProperties.BatchCompiles | src/main/java/com/sforce/ws/tools/WsdlcIterator.java:110-120 | the compiles of a batch are the calls for indices 0 up to and including the first throw |
| IteratorProperties.BatchDeletes | src/main/java/com/sforce/ws/tools/WsdlcIterator.java:101-108 | a batch deletes exactly the jar paths that existed; a file is gone exactly when it is such a path and its deletion succeeded |
| IteratorProperties.BatchPathSuffixes | src/main/java/com/sforce/ws/tools/WsdlcIterator.java:92-99 | over a listing of wsdl names, every jar path ends in ".apextest.jar" and every wsdl path ends in ".wsdl", when no jar or wsdl name in the directories is a symbolic link |
| IteratorProperties.BatchDeletesOnlyJars | src/main/java/com/sforce/ws/tools/WsdlcIterator.java:101-108 | over a listing of wsdl names, every path the batch deletes ends in ".apextest.jar", when no jar name in the jar directory is a symbolic link |
| IteratorProperties.UsageErrorExitsTwo | src/main/java/com/sforce/ws/tools/WsdlcIterator.java:43-50 | exit 2 happens exactly when the command line is malformed, and then nothing is deleted or compiled |
| IteratorProperties.ChecksPrecedeEveryAction | src/main/java/com/sforce/ws/tools/WsdlcIterator.java:43-86 | the trace is non-empty exactly when every check passes; a failed check deletes nothing, leaves every file, and does not exit 0 |
| IteratorProperties.DirectoryChecksExitOne | src/main/java/com/sforce/ws/tools/WsdlcIterator.java:54-67 | a failed canonicalisation, a bad wsdl directory, then a bad jar directory each exit 1 with an empty trace; the wsdl directory is checked first |
| IteratorProperties.EmptyListingExitsOne | src/main/java/com/sforce/ws/tools/WsdlcIterator.java:73-78 | a null or empty listing exits 1 with nothing done |
| IteratorProperties.NonWsdlListingExitsOne | src/main/java/com/sforce/ws/tools/WsdlcIterator.java:79-86 | if some listed name lacks ".wsdl", the run exits 1 with nothing done, reporting the first name without the suffix, which is at or before that one |
| IteratorProperties.FaithfulListing | src/main/java/com/sforce/ws/tools/WsdlcIterator.java:73-86 | when the listing honours the filter, the re-check never fires, and the run finds no input exactly when no entry ends in ".wsdl" |
| IteratorProperties.CleanupTargetsExistingJars | src/main/java/com/sforce/ws/tools/WsdlcIterator.java:101-108 | a run deletes exactly the mapped jar paths that existed, and no other file is removed |
| IteratorProperties.CleanupNeverDeletesInputs | src/main/java/com/sforce/ws/tools/WsdlcIterator.java:88-108 | every deleted path and every jar path ends in ".apextest.jar", every compiled path ends in ".wsdl", so no input wsdl path is ever deleted, when no jar or wsdl name in the directories is a symbolic link |
| IteratorProperties.EventOrder | src/main/java/com/sforce/ws/tools/WsdlcIterator.java:101-115 | every deletion precedes every other event; the templates are loaded at most once, before every compile, and every compile uses that group |
| IteratorProperties.CompilesFollowListing | src/main/java/com/sforce/ws/tools/WsdlcIterator.java:110-115 | compile k uses wsdl path k and jar path k, the configured prefix and standalone flag, the shared templates, no listener, and quiet mode; there is at most one compile per listed name |
| IteratorProperties.EachInputCompiledOnce | src/main/java/com/sforce/ws/tools/WsdlcIterator.java:94-115 | for a listing of distinct plain file names, no wsdl path is compiled twice, when no wsdl name in the directory is a symbolic link |
| IteratorProperties.FailFast | src/main/java/com/sforce/ws/tools/WsdlcIterator.java:112-120 | if call n throws, no call after it is made, and the run exits 1 naming the first call that threw |
| IteratorProperties.SuccessIffEveryCompileSucceeds | src/main/java/com/sforce/ws/tools/WsdlcIterator.java:110-120 | exit 0 happens exactly when the checks pass and no call throws, and then every listed file is compiled |
| IteratorProperties.DeleteResultIgnored | src/main/java/com/sforce/ws/tools/WsdlcIterator.java:104-107 | for the same compiler answers, whether deletions succeed changes neither the compiles, the exit status, nor the reason; the driver never reads the result of delete() |

## Left out

- Canonicalisation (`getCanonicalFile`, `getCanonicalPath`) is an oracle for each directory argument; `None` stands for the `IOException` that reaches the catch-all and exit 1. The canonical path of each jar and wsdl file (lines 97-98) is modelled by `WsdlNames.Join` as the canonical directory, a `/` and the name. Symbolic links inside the directories are not resolved. So `BatchPathSuffixes`, `BatchDeletesOnlyJars`, `CleanupNeverDeletesInputs` and `EachInputCompiledOnce` hold of the program only when no jar or wsdl name in the directories is a link. A link `jarDir/A.apextest.jar` pointing to `wsdlDir/A.wsdl` makes line 97 produce the input's path, which lines 104-106 then delete. A link `b.wsdl` pointing to `a.wsdl` makes line 98 produce the same path twice, so that file is compiled twice. A directory that canonicalises to the root `/` gives `"//" + name` where Java writes `"/" + name`. An `IOException` on those per-file calls is not modelled.
- `exists()`, `isDirectory()`, `list()`, `delete()` and `wsdlc.run` are oracles. A `SecurityException` from `exists`, `list` or `delete` is not modelled; in the source it would reach the catch-all and exit 1.
- The listing order is whatever the `list` oracle returns, since `File.list` does not fix it. The filter's unused `File` argument is dropped.
- Template loading: `STGroupDir(wsdlc.TEMPLATE_DIR, '$', '$')` is recorded as one `LoadTemplates` event carrying the location and the delimiters. Its constructor is taken not to throw, and template semantics are out of scope.
- The compiler's internals and the jar it writes are out of scope. Only the arguments of each call, and whether it throws, are modelled. The files it creates are not added to `files`.
- Configuration: `System.getProperty` and `Boolean.parseBoolean` are not modelled. The package prefix and the standalone flag are inputs carried through unchanged.
- Console output (`consoleMessage`, `showMainUsage`, `printStackTrace`) is not modelled. The `Reason` of an outcome stands in for which message would be printed.
- `System.exit` is modelled as the end of the run with its status; a normal return is status 0.
- WsdlNames.EqualsIgnoreCase: it uses Java's case mapping only for ASCII letters and the four non-ASCII characters whose mapping reaches one (U+0130, U+0131, U+017F, U+212A). Full Unicode case tables are not modelled, which is exact for comparisons with the ASCII keywords `wsdldir` and `jardir`.
- WsdlNames.ReplaceAll: it requires a non-empty target. `String.replace` with an empty target inserts the replacement between characters, but the source only ever replaces ".wsdl".
- A jar path can collide with another listed file's jar path (`JarNameCollision`). The model records both calls. What wsdlc does with a jar that already exists is outside the model; whether that call throws is the `compileThrows` oracle's answer.
