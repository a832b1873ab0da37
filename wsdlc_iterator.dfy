/**
 * The batch driver: validate four command-line arguments, check the wsdl and
 * jar directories, list the wsdl files, map every wsdl name to an artifact
 * path, delete stale artifacts, then run the compiler once per file and stop
 * at the first failure.
 *
 * The filesystem, the compiler and the console are outside the model. Their
 * answers come from a World value of oracles, and what the driver does to them
 * is recorded as a trace of events.
 */
module WsdlcIterator {
  import opened WsdlNames

  /** What the filesystem says about one raw directory argument. */
  datatype DirInfo = DirInfo(
    canonical: Option<string>,  // getCanonicalFile(); None when it throws
    isPresent: bool,            // exists()
    isDirectory: bool)          // isDirectory()

  /** The two system properties read at start-up, and the compiler's template directory. */
  datatype Config = Config(packagePrefix: Option<string>, standAlone: bool, templateDir: string)

  /** The template group handed to the compiler: a location and two delimiters. */
  datatype Templates = Templates(location: string, startDelimiter: char, stopDelimiter: char)

  /** The externally visible actions of a run, in the order they happen. */
  datatype Event =
    | Delete(path: string)
    | LoadTemplates(group: Templates)
    | Compile(wsdlPath: string, jarPath: string, packagePrefix: Option<string>,
              standAlone: bool, templates: Templates, hasListener: bool, quiet: bool)

  /** Why a run ended. */
  datatype Reason =
    | Completed
    | UsageError
    | CanonicalisationFailed
    | InvalidWsdlDir
    | InvalidJarDir
    | NoInputFiles
    | FilterInvariantViolation(name: string)
    | CompilationFailure(index: nat)

  /**
   * The oracles the driver consults. The compiler oracle is indexed by the
   * number of the call: compileThrows(n) says whether call n throws.
   */
  datatype World = World(
    dirInfo: string -> DirInfo,
    list: string -> Option<seq<string>>,
    files: set<string>,
    deleteSucceeds: string -> bool,
    compileThrows: nat -> bool)

  /** The trace, the process exit status, the reason, and the files present once the run ends. */
  datatype Outcome = Outcome(trace: seq<Event>, exitCode: int, reason: Reason, files: set<string>)

  const UsageExit := 2
  const FailureExit := 1
  const SuccessExit := 0

  /** The template group is built from the compiler's template directory with '$' delimiters. */
  function TemplateGroup(cfg: Config): Templates
  {
    Templates(cfg.templateDir, '$', '$')
  }

  /** Exactly four arguments, the first "wsdldir" and the third "jardir", ignoring case. */
  predicate ArgsWellShaped(args: seq<string>)
  {
    |args| == 4 && EqualsIgnoreCase("wsdldir", args[0]) && EqualsIgnoreCase("jardir", args[2])
  }

  predicate ValidDir(d: DirInfo)
  {
    d.isPresent && d.isDirectory
  }

  /** The index of the first listed name that does not end with ".wsdl", or the length. */
  function FirstNonWsdl(names: seq<string>): (r: nat)
    ensures r <= |names|
    ensures forall k :: 0 <= k < r ==> EndsWith(names[k], WsdlSuffix)
    ensures r < |names| ==> !EndsWith(names[r], WsdlSuffix)
  {
    if names == [] || !EndsWith(names[0], WsdlSuffix) then 0
    else 1 + FirstNonWsdl(names[1..])
  }

  /** The index of the first compiler call from i on that throws, or n when none before n does. */
  function FirstThrow(throws: nat -> bool, i: nat, n: nat): (r: nat)
    requires i <= n
    ensures i <= r <= n
    ensures forall k :: i <= k < r ==> !throws(k)
    ensures r < n ==> throws(r)
    decreases n - i
  {
    if i == n || throws(i) then i else FirstThrow(throws, i + 1, n)
  }

  /**
   * How many compiler calls the loop makes over n files: up to and including
   * the first that throws, or all n.
   */
  function CallCount(throws: nat -> bool, n: nat): (r: nat)
    ensures r <= n
    ensures forall k :: 0 <= k < r - 1 ==> !throws(k)
    ensures r < n ==> r > 0 && throws(r - 1)
    ensures r == n ==> n == 0 || throws(n - 1) || forall k :: 0 <= k < n ==> !throws(k)
  {
    var first := FirstThrow(throws, 0, n);
    if first < n then first + 1 else n
  }

  /** jarFiles: the artifact path of every listed name, in the jar directory. */
  function JarPaths(jarDir: string, names: seq<string>): seq<string>
  {
    seq(|names|, k requires 0 <= k < |names| => Join(jarDir, JarName(names[k])))
  }

  /** wsdlPaths: the path of every listed name, in the wsdl directory. */
  function WsdlPaths(wsdlDir: string, names: seq<string>): seq<string>
  {
    seq(|names|, k requires 0 <= k < |names| => Join(wsdlDir, names[k]))
  }

  /** The events of the delete pass and the files left behind it. */
  datatype Cleanup = Cleanup(deleted: seq<Event>, remaining: set<string>)

  /**
   * The delete pass over the first k artifact paths: an existing path is
   * deleted (the attempt is recorded whatever its result), and the path
   * disappears only when the deletion succeeds.
   */
  function DeletePass(jars: seq<string>, k: nat, files: set<string>, deleteSucceeds: string -> bool): Cleanup
    requires k <= |jars|
  {
    if k == 0 then Cleanup([], files)
    else
      var before := DeletePass(jars, k - 1, files, deleteSucceeds);
      var p := jars[k - 1];
      if p in before.remaining then
        Cleanup(before.deleted + [Delete(p)],
                if deleteSucceeds(p) then before.remaining - {p} else before.remaining)
      else before
  }

  /** The compile call for index k. */
  function CompileCall(wsdls: seq<string>, jars: seq<string>, cfg: Config, k: nat): Event
    requires k < |wsdls| && k < |jars|
  {
    Compile(wsdls[k], jars[k], cfg.packagePrefix, cfg.standAlone, TemplateGroup(cfg), false, true)
  }

  /** The first count compile calls, in index order. */
  function CompileCalls(wsdls: seq<string>, jars: seq<string>, cfg: Config, count: nat): seq<Event>
    requires count <= |wsdls| && count <= |jars|
  {
    seq(count, k requires 0 <= k < count => CompileCall(wsdls, jars, cfg, k))
  }

  /** The run once every check has passed: map, delete, load the templates, compile. */
  function Batch(names: seq<string>, wsdlDir: string, jarDir: string, cfg: Config, w: World): Outcome
  {
    var jars := JarPaths(jarDir, names);
    var wsdls := WsdlPaths(wsdlDir, names);
    var cleanup := DeletePass(jars, |jars|, w.files, w.deleteSucceeds);
    var first := FirstThrow(w.compileThrows, 0, |names|);
    var failed := first < |names|;
    var compiles := CompileCalls(wsdls, jars, cfg, CallCount(w.compileThrows, |names|));
    Outcome(cleanup.deleted + [LoadTemplates(TemplateGroup(cfg))] + compiles,
            if failed then FailureExit else SuccessExit,
            if failed then CompilationFailure(first) else Completed,
            cleanup.remaining)
  }

  /** The result of the checks that precede the batch. */
  datatype Checked =
    | Rejected(reason: Reason, exitCode: int)
    | Accepted(wsdlDir: string, jarDir: string, names: seq<string>)

  /**
   * The argument, directory and listing checks, in the order main makes them.
   * An accepted run carries the canonical directories and a non-empty listing
   * of names that all end with ".wsdl"; a rejected one carries status 2 for a
   * malformed command line and status 1 otherwise.
   */
  function Check(args: seq<string>, w: World): (c: Checked)
    ensures c.Accepted? ==> |c.names| > 0 && forall k :: 0 <= k < |c.names| ==> EndsWith(c.names[k], WsdlSuffix)
    ensures c.Rejected? ==> c.exitCode == (if c.reason == UsageError then UsageExit else FailureExit)
    ensures c.Rejected? ==> c.reason != Completed && !c.reason.CompilationFailure?
  {
    if !ArgsWellShaped(args) then Rejected(UsageError, UsageExit)
    else
      var wInfo := w.dirInfo(args[1]);
      var jInfo := w.dirInfo(args[3]);
      if wInfo.canonical.None? || jInfo.canonical.None? then Rejected(CanonicalisationFailed, FailureExit)
      else if !ValidDir(wInfo) then Rejected(InvalidWsdlDir, FailureExit)
      else if !ValidDir(jInfo) then Rejected(InvalidJarDir, FailureExit)
      else
        var listing := w.list(wInfo.canonical.value);
        if listing.None? || |listing.value| == 0 then Rejected(NoInputFiles, FailureExit)
        else
          var names := listing.value;
          var bad := FirstNonWsdl(names);
          if bad < |names| then Rejected(FilterInvariantViolation(names[bad]), FailureExit)
          else Accepted(wInfo.canonical.value, jInfo.canonical.value, names)
  }

  /** The whole run of main, as a function of its arguments, its configuration and the world. */
  function Execute(args: seq<string>, cfg: Config, w: World): (o: Outcome)
    ensures o.exitCode in {SuccessExit, FailureExit, UsageExit}
  {
    match Check(args, w)
    case Rejected(reason, exitCode) => Outcome([], exitCode, reason, w.files)
    case Accepted(wsdlDir, jarDir, names) => Batch(names, wsdlDir, jarDir, cfg, w)
  }

  /**
   * main, step by step: the argument checks, the directory checks, the
   * listing checks, the loop that fills jarFiles and wsdlPaths, the delete
   * loop, and the compile loop that stops at the first call that throws.
   */
  method Run(args: seq<string>, cfg: Config, w: World) returns (outcome: Outcome)
    ensures outcome == Execute(args, cfg, w)
  {
    // Parse input parameters
    if |args| != 4 {
      return Outcome([], UsageExit, UsageError, w.files);
    }
    if !EqualsIgnoreCase("wsdldir", args[0]) || !EqualsIgnoreCase("jardir", args[2]) {
      return Outcome([], UsageExit, UsageError, w.files);
    }

    // Validate the directories
    var wInfo := w.dirInfo(args[1]);
    var jInfo := w.dirInfo(args[3]);
    if wInfo.canonical.None? || jInfo.canonical.None? {
      return Outcome([], FailureExit, CanonicalisationFailed, w.files);
    }
    if !wInfo.isPresent || !wInfo.isDirectory {
      return Outcome([], FailureExit, InvalidWsdlDir, w.files);
    }
    if !jInfo.isPresent || !jInfo.isDirectory {
      return Outcome([], FailureExit, InvalidJarDir, w.files);
    }
    var wsdlDir := wInfo.canonical.value;
    var jarDir := jInfo.canonical.value;

    // List the wsdl files and validate the listing
    var listing := w.list(wsdlDir);
    if listing.None? || |listing.value| == 0 {
      return Outcome([], FailureExit, NoInputFiles, w.files);
    }
    var wsdlFiles := listing.value;
    var bad := CheckListing(wsdlFiles);
    if bad < |wsdlFiles| {
      return Outcome([], FailureExit, FilterInvariantViolation(wsdlFiles[bad]), w.files);
    }

    assert bad == FirstNonWsdl(wsdlFiles);

    var jarFiles, wsdlPaths := MapNames(wsdlDir, jarDir, wsdlFiles);
    assert jarFiles[..] == JarPaths(jarDir, wsdlFiles);
    assert wsdlPaths[..] == WsdlPaths(wsdlDir, wsdlFiles);
    var deleted, files := DeleteStale(jarFiles, w.files, w.deleteSucceeds);
    var templates := TemplateGroup(cfg);
    var compiles, exitCode, reason := CompileAll(wsdlPaths, jarFiles, cfg, templates, w.compileThrows);
    outcome := Outcome(deleted + [LoadTemplates(templates)] + compiles, exitCode, reason, files);
  }

  /** The defensive re-check of the listing: the index of the first name without ".wsdl", or the length. */
  method CheckListing(wsdlFiles: seq<string>) returns (bad: nat)
    ensures bad <= |wsdlFiles|
    ensures forall k :: 0 <= k < bad ==> EndsWith(wsdlFiles[k], WsdlSuffix)
    ensures bad < |wsdlFiles| ==> !EndsWith(wsdlFiles[bad], WsdlSuffix)
  {
    bad := 0;
    while bad < |wsdlFiles|
      invariant 0 <= bad <= |wsdlFiles|
      invariant forall k :: 0 <= k < bad ==> EndsWith(wsdlFiles[k], WsdlSuffix)
    {
      if !EndsWith(wsdlFiles[bad], WsdlSuffix) {
        return;
      }
      bad := bad + 1;
    }
  }

  /**
   * Fills the two parallel arrays: index k of jarFiles is the artifact path of
   * wsdlFiles[k] in the jar directory, index k of wsdlPaths is its path in the
   * wsdl directory.
   */
  method MapNames(wsdlDir: string, jarDir: string, wsdlFiles: seq<string>)
    returns (jarFiles: array<string>, wsdlPaths: array<string>)
    ensures fresh(jarFiles) && fresh(wsdlPaths)
    ensures jarFiles.Length == wsdlPaths.Length == |wsdlFiles|
    ensures forall k :: 0 <= k < |wsdlFiles| ==> jarFiles[k] == Join(jarDir, JarName(wsdlFiles[k]))
    ensures forall k :: 0 <= k < |wsdlFiles| ==> wsdlPaths[k] == Join(wsdlDir, wsdlFiles[k])
  {
    jarFiles := new string[|wsdlFiles|];
    wsdlPaths := new string[|wsdlFiles|];
    var ix := 0;
    while ix < |wsdlFiles|
      invariant 0 <= ix <= |wsdlFiles|
      invariant forall k :: 0 <= k < ix ==> jarFiles[k] == Join(jarDir, JarName(wsdlFiles[k]))
      invariant forall k :: 0 <= k < ix ==> wsdlPaths[k] == Join(wsdlDir, wsdlFiles[k])
    {
      jarFiles[ix] := Join(jarDir, JarName(wsdlFiles[ix]));
      wsdlPaths[ix] := Join(wsdlDir, wsdlFiles[ix]);
      ix := ix + 1;
    }
  }

  /** The delete loop: every artifact path that exists is deleted before any compile. */
  method DeleteStale(jarFiles: array<string>, existing: set<string>, deleteSucceeds: string -> bool)
    returns (deleted: seq<Event>, files: set<string>)
    ensures Cleanup(deleted, files) == DeletePass(jarFiles[..], jarFiles.Length, existing, deleteSucceeds)
  {
    deleted, files := [], existing;
    var ix := 0;
    while ix < jarFiles.Length
      invariant 0 <= ix <= jarFiles.Length
      invariant Cleanup(deleted, files) == DeletePass(jarFiles[..], ix, existing, deleteSucceeds)
    {
      var aJar := jarFiles[ix];
      if aJar in files {
        deleted := deleted + [Delete(aJar)];
        if deleteSucceeds(aJar) {
          files := files - {aJar};
        }
      }
      ix := ix + 1;
    }
  }

  /**
   * The compile loop: one call per file in index order, all with the same
   * template group, stopping after the first call that throws.
   */
  method CompileAll(wsdlPaths: array<string>, jarFiles: array<string>, cfg: Config, templates: Templates,
                    compileThrows: nat -> bool)
    returns (calls: seq<Event>, exitCode: int, reason: Reason)
    requires wsdlPaths.Length == jarFiles.Length && templates == TemplateGroup(cfg)
    ensures var n := jarFiles.Length;
            var first := FirstThrow(compileThrows, 0, n);
            && calls == CompileCalls(wsdlPaths[..], jarFiles[..], cfg, CallCount(compileThrows, n))
            && exitCode == (if first < n then FailureExit else SuccessExit)
            && reason == (if first < n then CompilationFailure(first) else Completed)
  {
    calls := [];
    var ix := 0;
    while ix < jarFiles.Length
      invariant 0 <= ix <= jarFiles.Length
      invariant forall k :: 0 <= k < ix ==> !compileThrows(k)
      invariant calls == CompileCalls(wsdlPaths[..], jarFiles[..], cfg, ix)
    {
      calls := calls + [Compile(wsdlPaths[ix], jarFiles[ix], cfg.packagePrefix, cfg.standAlone, templates, false, true)];
      assert calls == CompileCalls(wsdlPaths[..], jarFiles[..], cfg, ix + 1);
      if compileThrows(ix) {
        return calls, FailureExit, CompilationFailure(ix);
      }
      ix := ix + 1;
    }
    return calls, SuccessExit, Completed;
  }
}
