/**
 * What a run of the batch driver promises, stated about Execute (and so, by
 * the contract of Run, about the driver itself): the exit statuses of the
 * validation steps, the delete pass, the order of the events, and the
 * fail-fast compile loop.
 */
module IteratorProperties {
  import opened WsdlNames
  import opened WsdlcIterator

  /** Every check before the batch passes: arguments, both directories, a non-empty all-wsdl listing. */
  predicate Validated(args: seq<string>, w: World)
  {
    && ArgsWellShaped(args)
    && var wInfo := w.dirInfo(args[1]);
       var jInfo := w.dirInfo(args[3]);
       && wInfo.canonical.Some? && jInfo.canonical.Some?
       && ValidDir(wInfo) && ValidDir(jInfo)
       && var listing := w.list(wInfo.canonical.value);
          && listing.Some? && |listing.value| > 0
          && forall k :: 0 <= k < |listing.value| ==> EndsWith(listing.value[k], WsdlSuffix)
  }

  /** The checks accept a run exactly when it is validated, with its canonical directories and listing. */
  lemma CheckAcceptsValidated(args: seq<string>, w: World)
    ensures Check(args, w).Accepted? <==> Validated(args, w)
    ensures Validated(args, w) ==>
              Check(args, w) == Accepted(w.dirInfo(args[1]).canonical.value, w.dirInfo(args[3]).canonical.value,
                                         w.list(w.dirInfo(args[1]).canonical.value).value)
  {
    if Validated(args, w) {
      assert FirstNonWsdl(w.list(w.dirInfo(args[1]).canonical.value).value)
          == |w.list(w.dirInfo(args[1]).canonical.value).value|;
    }
  }

  /** A validated run is the batch over its listing; any other run ends with nothing done. */
  lemma RunIsBatchOrAbort(args: seq<string>, cfg: Config, w: World)
    ensures var c := Check(args, w);
            var o := Execute(args, cfg, w);
            && (c.Accepted? ==> o == Batch(c.names, c.wsdlDir, c.jarDir, cfg, w))
            && (c.Rejected? ==> o == Outcome([], c.exitCode, c.reason, w.files))
  {
  }

  // ---------------------------------------------------------------------------
  // The compile events of a trace
  // ---------------------------------------------------------------------------

  /** The compile events of a trace, in trace order. */
  function Compiles(t: seq<Event>): (r: seq<Event>)
    ensures |r| <= |t|
    ensures forall e :: e in r <==> e in t && e.Compile?
  {
    if t == [] then []
    else (if t[0].Compile? then [t[0]] else []) + Compiles(t[1..])
  }

  lemma {:induction false} CompilesAppend(a: seq<Event>, b: seq<Event>)
    ensures Compiles(a + b) == Compiles(a) + Compiles(b)
  {
    if a == [] {
      assert a + b == b;
    } else {
      assert (a + b)[0] == a[0];
      assert (a + b)[1..] == a[1..] + b;
      CompilesAppend(a[1..], b);
      var head := if a[0].Compile? then [a[0]] else [];
      assert Compiles(a + b) == head + Compiles(a[1..] + b);
      assert Compiles(a) == head + Compiles(a[1..]);
    }
  }

  lemma {:induction false} CompilesOfCompileEvents(t: seq<Event>)
    requires forall i :: 0 <= i < |t| ==> t[i].Compile?
    ensures Compiles(t) == t
  {
    if t != [] {
      CompilesOfCompileEvents(t[1..]);
    }
  }

  lemma {:induction false} CompilesOfOtherEvents(t: seq<Event>)
    requires forall i :: 0 <= i < |t| ==> !t[i].Compile?
    ensures Compiles(t) == []
  {
    if t != [] {
      CompilesOfOtherEvents(t[1..]);
    }
  }

  // ---------------------------------------------------------------------------
  // The delete pass
  // ---------------------------------------------------------------------------

  /**
   * After the delete pass over the first k artifact paths: at most k events,
   * all deletions of those paths; a deletion is recorded for a path exactly
   * when it is one of them and existed beforehand; and a file is gone exactly
   * when it is one of them and its deletion succeeded.
   */
  lemma {:induction false} DeletePassTargets(jars: seq<string>, k: nat, files: set<string>, ok: string -> bool)
    requires k <= |jars|
    ensures var c := DeletePass(jars, k, files, ok);
            && |c.deleted| <= k
            && (forall e :: e in c.deleted ==> e.Delete? && e.path in jars[..k])
            && (forall p :: Delete(p) in c.deleted <==> p in files && p in jars[..k])
            && (forall p :: p in c.remaining <==> p in files && !(p in jars[..k] && ok(p)))
  {
    if k > 0 {
      DeletePassTargets(jars, k - 1, files, ok);
      assert jars[..k] == jars[..k - 1] + [jars[k - 1]];
    }
  }

  /** The delete pass on paths that all end with a suffix deletes only such paths. */
  lemma DeletedPathsEndWith(jars: seq<string>, files: set<string>, ok: string -> bool, suffix: string)
    requires forall k :: 0 <= k < |jars| ==> EndsWith(jars[k], suffix)
    ensures forall e :: e in DeletePass(jars, |jars|, files, ok).deleted ==> e.Delete? && EndsWith(e.path, suffix)
  {
    DeletePassTargets(jars, |jars|, files, ok);
    assert jars[..|jars|] == jars;
  }

  // ---------------------------------------------------------------------------
  // The batch: delete pass, template load, compile loop
  // ---------------------------------------------------------------------------

  /** The events of a batch: the deletions, one template load, then the compile calls. */
  lemma BatchTrace(names: seq<string>, wsdlDir: string, jarDir: string, cfg: Config, w: World)
    ensures var jars := JarPaths(jarDir, names);
            var d := DeletePass(jars, |jars|, w.files, w.deleteSucceeds).deleted;
            var t := Batch(names, wsdlDir, jarDir, cfg, w).trace;
            && |d| < |t|
            && (forall i :: 0 <= i < |d| ==> t[i] == d[i] && t[i].Delete?)
            && t[|d|] == LoadTemplates(TemplateGroup(cfg))
            && (forall j :: |d| < j < |t| ==> t[j].Compile? && t[j].templates == TemplateGroup(cfg))
  {
    var jars := JarPaths(jarDir, names);
    DeletePassTargets(jars, |jars|, w.files, w.deleteSucceeds);
  }

  /**
   * The compile events of a batch are the calls for indices 0 up to and
   * including the first call that throws, or all of them when none throws.
   */
  lemma BatchCompiles(names: seq<string>, wsdlDir: string, jarDir: string, cfg: Config, w: World)
    ensures Compiles(Batch(names, wsdlDir, jarDir, cfg, w).trace) ==
              CompileCalls(WsdlPaths(wsdlDir, names), JarPaths(jarDir, names), cfg,
                           CallCount(w.compileThrows, |names|))
  {
    var jars := JarPaths(jarDir, names);
    DeletePassTargets(jars, |jars|, w.files, w.deleteSucceeds);
    var first := FirstThrow(w.compileThrows, 0, |names|);
    var c := CompileCalls(WsdlPaths(wsdlDir, names), jars, cfg, CallCount(w.compileThrows, |names|));
    var d := DeletePass(jars, |jars|, w.files, w.deleteSucceeds).deleted;
    var load := [LoadTemplates(TemplateGroup(cfg))];
    var t := Batch(names, wsdlDir, jarDir, cfg, w).trace;
    assert t == d + load + c;
    assert forall i :: 0 <= i < |c| ==> c[i].Compile?;
    CompilesAfterSetup(d, load, c);
    assert Compiles(t) == c;
  }

  /** Deletions and template loads contribute no compile events. */
  lemma CompilesAfterSetup(d: seq<Event>, load: seq<Event>, c: seq<Event>)
    requires forall e :: e in d ==> e.Delete?
    requires forall e :: e in load ==> e.LoadTemplates?
    requires forall i :: 0 <= i < |c| ==> c[i].Compile?
    ensures Compiles(d + load + c) == c
  {
    CompilesAppend(d + load, c);
    CompilesAppend(d, load);
    CompilesOfOtherEvents(d);
    CompilesOfOtherEvents(load);
    CompilesOfCompileEvents(c);
  }

  /** The deletions of a batch are exactly those of its artifact paths that existed. */
  lemma BatchDeletes(names: seq<string>, wsdlDir: string, jarDir: string, cfg: Config, w: World)
    ensures var o := Batch(names, wsdlDir, jarDir, cfg, w);
            var jars := JarPaths(jarDir, names);
            && (forall p :: Delete(p) in o.trace <==> p in w.files && p in jars)
            && (forall p :: p in o.files <==> p in w.files && !(p in jars && w.deleteSucceeds(p)))
  {
    var jars := JarPaths(jarDir, names);
    DeletePassTargets(jars, |jars|, w.files, w.deleteSucceeds);
    assert jars[..|jars|] == jars;
    var d := DeletePass(jars, |jars|, w.files, w.deleteSucceeds).deleted;
    var t := Batch(names, wsdlDir, jarDir, cfg, w).trace;
    BatchTrace(names, wsdlDir, jarDir, cfg, w);
    forall p ensures Delete(p) in t <==> Delete(p) in d {
      if Delete(p) in t {
        var i :| 0 <= i < |t| && t[i] == Delete(p);
        assert i < |d|;
      }
    }
  }

  /**
   * In a batch over wsdl names, every artifact path ends with ".apextest.jar"
   * and every input path with ".wsdl". Paths are directory, "/" and name, so
   * this holds of the program when no jar or wsdl name in the directories is a
   * symbolic link.
   */
  lemma BatchPathSuffixes(names: seq<string>, wsdlDir: string, jarDir: string)
    requires forall k :: 0 <= k < |names| ==> EndsWith(names[k], WsdlSuffix)
    ensures var jars, wsdls := JarPaths(jarDir, names), WsdlPaths(wsdlDir, names);
            forall k :: 0 <= k < |names| ==> EndsWith(jars[k], UniqueJarSuffix) && EndsWith(wsdls[k], WsdlSuffix)
  {
    forall k | 0 <= k < |names|
      ensures EndsWith(JarPaths(jarDir, names)[k], UniqueJarSuffix)
      ensures EndsWith(WsdlPaths(wsdlDir, names)[k], WsdlSuffix)
    {
      JarNameOfWsdl(names[k]);
      JoinEndsWith(jarDir, JarName(names[k]), UniqueJarSuffix);
      JoinEndsWith(wsdlDir, names[k], WsdlSuffix);
    }
  }

  /**
   * In a batch over wsdl names, every deleted path ends with ".apextest.jar".
   * Paths are directory, "/" and name, so this holds of the program when no
   * jar name in the jar directory is a symbolic link.
   */
  lemma BatchDeletesOnlyJars(names: seq<string>, wsdlDir: string, jarDir: string, cfg: Config, w: World)
    requires forall k :: 0 <= k < |names| ==> EndsWith(names[k], WsdlSuffix)
    ensures forall e :: e in Batch(names, wsdlDir, jarDir, cfg, w).trace && e.Delete? ==>
              EndsWith(e.path, UniqueJarSuffix)
  {
    var jars := JarPaths(jarDir, names);
    var d := DeletePass(jars, |jars|, w.files, w.deleteSucceeds).deleted;
    var t := Batch(names, wsdlDir, jarDir, cfg, w).trace;
    BatchPathSuffixes(names, wsdlDir, jarDir);
    DeletedPathsEndWith(jars, w.files, w.deleteSucceeds, UniqueJarSuffix);
    BatchTrace(names, wsdlDir, jarDir, cfg, w);
    forall e | e in t && e.Delete? ensures e in d {
      var i :| 0 <= i < |t| && t[i] == e;
      assert i < |d|;
    }
  }

  // ---------------------------------------------------------------------------
  // Validation steps
  // ---------------------------------------------------------------------------

  /** Exit status 2 happens exactly for a malformed command line, and then nothing is done. */
  lemma UsageErrorExitsTwo(args: seq<string>, cfg: Config, w: World)
    ensures Execute(args, cfg, w).exitCode == UsageExit <==> !ArgsWellShaped(args)
    ensures !ArgsWellShaped(args) ==>
              var o := Execute(args, cfg, w);
              o.trace == [] && o.files == w.files && o.reason == UsageError
  {
    RunIsBatchOrAbort(args, cfg, w);
  }

  /**
   * Every failed check stops the run before any deletion, template load or
   * compile: the trace is non-empty exactly when all checks pass.
   */
  lemma ChecksPrecedeEveryAction(args: seq<string>, cfg: Config, w: World)
    ensures Execute(args, cfg, w).trace != [] <==> Validated(args, w)
    ensures !Validated(args, w) ==>
              var o := Execute(args, cfg, w);
              o.trace == [] && o.files == w.files && o.exitCode != SuccessExit
  {
    CheckAcceptsValidated(args, w);
    RunIsBatchOrAbort(args, cfg, w);
    var c := Check(args, w);
    if c.Accepted? {
      BatchTrace(c.names, c.wsdlDir, c.jarDir, cfg, w);
    }
  }

  /**
   * The directory checks: a failed canonicalisation, a missing or non-directory
   * wsdl directory, then a missing or non-directory jar directory, each exit
   * with status 1; the wsdl directory is checked first.
   */
  lemma DirectoryChecksExitOne(args: seq<string>, cfg: Config, w: World)
    requires ArgsWellShaped(args)
    ensures var o := Execute(args, cfg, w);
            var wInfo := w.dirInfo(args[1]);
            var jInfo := w.dirInfo(args[3]);
            && (wInfo.canonical.None? || jInfo.canonical.None? ==>
                  o.exitCode == FailureExit && o.reason == CanonicalisationFailed && o.trace == [])
            && (wInfo.canonical.Some? && jInfo.canonical.Some? && !ValidDir(wInfo) ==>
                  o.exitCode == FailureExit && o.reason == InvalidWsdlDir && o.trace == [])
            && (wInfo.canonical.Some? && jInfo.canonical.Some? && ValidDir(wInfo) && !ValidDir(jInfo) ==>
                  o.exitCode == FailureExit && o.reason == InvalidJarDir && o.trace == [])
  {
    RunIsBatchOrAbort(args, cfg, w);
  }

  /** A null or empty listing exits with status 1 before anything is done. */
  lemma EmptyListingExitsOne(args: seq<string>, cfg: Config, w: World)
    requires ArgsWellShaped(args)
    requires w.dirInfo(args[1]).canonical.Some? && w.dirInfo(args[3]).canonical.Some?
    requires ValidDir(w.dirInfo(args[1])) && ValidDir(w.dirInfo(args[3]))
    requires var l := w.list(w.dirInfo(args[1]).canonical.value); l.None? || l.value == []
    ensures var o := Execute(args, cfg, w);
            o.exitCode == FailureExit && o.reason == NoInputFiles && o.trace == [] && o.files == w.files
  {
    RunIsBatchOrAbort(args, cfg, w);
  }

  /**
   * The defensive re-check: when some listed name does not end with ".wsdl",
   * the run exits with status 1 and an empty trace, naming the first such name.
   */
  lemma NonWsdlListingExitsOne(args: seq<string>, cfg: Config, w: World, k: nat)
    requires ArgsWellShaped(args)
    requires w.dirInfo(args[1]).canonical.Some? && w.dirInfo(args[3]).canonical.Some?
    requires ValidDir(w.dirInfo(args[1])) && ValidDir(w.dirInfo(args[3]))
    requires var l := w.list(w.dirInfo(args[1]).canonical.value);
             l.Some? && k < |l.value| && !EndsWith(l.value[k], WsdlSuffix)
    ensures var o := Execute(args, cfg, w);
            var names := w.list(w.dirInfo(args[1]).canonical.value).value;
            && o.exitCode == FailureExit && o.trace == [] && o.files == w.files
            && exists b :: 0 <= b <= k && o.reason == FilterInvariantViolation(names[b])
                 && !EndsWith(names[b], WsdlSuffix)
                 && forall j :: 0 <= j < b ==> EndsWith(names[j], WsdlSuffix)
  {
    RunIsBatchOrAbort(args, cfg, w);
    var names := w.list(w.dirInfo(args[1]).canonical.value).value;
    var bad := FirstNonWsdl(names);
    assert bad <= k;
  }

  /**
   * On a platform whose listing honours the filter, the re-check never fires,
   * the run finds no input exactly when no entry ends with ".wsdl", and
   * otherwise the checks accept it.
   */
  lemma FaithfulListing(args: seq<string>, cfg: Config, w: World, entries: seq<string>)
    requires ArgsWellShaped(args)
    requires w.dirInfo(args[1]).canonical.Some? && w.dirInfo(args[3]).canonical.Some?
    requires ValidDir(w.dirInfo(args[1])) && ValidDir(w.dirInfo(args[3]))
    requires w.list(w.dirInfo(args[1]).canonical.value) == Some(FilterNames(entries))
    ensures !Execute(args, cfg, w).reason.FilterInvariantViolation?
    ensures Execute(args, cfg, w).reason == NoInputFiles <==> forall e :: e in entries ==> !Accept(Some(e))
    ensures Validated(args, w) <==> exists e :: e in entries && Accept(Some(e))
  {
    RunIsBatchOrAbort(args, cfg, w);
    CheckAcceptsValidated(args, w);
    var r := FilterNames(entries);
    assert FirstNonWsdl(r) == |r|;
    if r != [] {
      assert multiset(r)[r[0]] > 0;
      BatchTrace(r, w.dirInfo(args[1]).canonical.value, w.dirInfo(args[3]).canonical.value, cfg, w);
      BatchCompiles(r, w.dirInfo(args[1]).canonical.value, w.dirInfo(args[3]).canonical.value, cfg, w);
    }
    forall e | e in entries && Accept(Some(e)) ensures r != [] {
      assert multiset(entries)[e] > 0;
      assert multiset(r)[e] > 0;
    }
  }

  // ---------------------------------------------------------------------------
  // The delete pass of a run
  // ---------------------------------------------------------------------------

  /**
   * A deletion is attempted exactly for the artifact paths that already
   * existed, and a file is gone afterwards exactly when it is such a path and
   * its deletion succeeded; no other path is touched.
   */
  lemma CleanupTargetsExistingJars(args: seq<string>, cfg: Config, w: World)
    requires Check(args, w).Accepted?
    ensures var c := Check(args, w);
            var o := Execute(args, cfg, w);
            var jars := JarPaths(c.jarDir, c.names);
            && (forall p :: Delete(p) in o.trace <==> p in w.files && p in jars)
            && (forall p :: p in o.files <==> p in w.files && !(p in jars && w.deleteSucceeds(p)))
  {
    RunIsBatchOrAbort(args, cfg, w);
    var c := Check(args, w);
    BatchDeletes(c.names, c.wsdlDir, c.jarDir, cfg, w);
  }

  /**
   * The cleanup only touches generated artifacts: every deleted path and
   * every jar path ends with ".apextest.jar", every compiled input ends with
   * ".wsdl", and so no input wsdl path is ever deleted, even when both
   * directories are the same. Paths are directory, "/" and name, so this holds
   * of the program when no jar or wsdl name in the directories is a symbolic
   * link.
   */
  lemma CleanupNeverDeletesInputs(args: seq<string>, cfg: Config, w: World)
    requires Check(args, w).Accepted?
    ensures var c := Check(args, w);
            var o := Execute(args, cfg, w);
            && (forall e :: e in o.trace && e.Delete? ==> EndsWith(e.path, UniqueJarSuffix))
            && (forall e :: e in o.trace && e.Compile? ==>
                  EndsWith(e.jarPath, UniqueJarSuffix) && EndsWith(e.wsdlPath, WsdlSuffix))
            && (forall p, k :: Delete(p) in o.trace && 0 <= k < |c.names| ==> p != Join(c.wsdlDir, c.names[k]))
  {
    RunIsBatchOrAbort(args, cfg, w);
    var c := Check(args, w);
    var jars, wsdls := JarPaths(c.jarDir, c.names), WsdlPaths(c.wsdlDir, c.names);
    BatchPathSuffixes(c.names, c.wsdlDir, c.jarDir);
    BatchDeletes(c.names, c.wsdlDir, c.jarDir, cfg, w);
    BatchCompiles(c.names, c.wsdlDir, c.jarDir, cfg, w);
    var t := Execute(args, cfg, w).trace;
    BatchDeletesOnlyJars(c.names, c.wsdlDir, c.jarDir, cfg, w);
    forall e | e in t && e.Compile?
      ensures EndsWith(e.jarPath, UniqueJarSuffix) && EndsWith(e.wsdlPath, WsdlSuffix)
    {
      assert e in Compiles(t);
      var k :| 0 <= k < |Compiles(t)| && Compiles(t)[k] == e;
    }
    forall p, k | Delete(p) in t && 0 <= k < |c.names| ensures p != Join(c.wsdlDir, c.names[k]) {
      var j :| 0 <= j < |jars| && jars[j] == p;
      SuffixesExclusive(p, wsdls[k]);
    }
  }

  // ---------------------------------------------------------------------------
  // Order of the events
  // ---------------------------------------------------------------------------

  /**
   * Every deletion precedes every other event; the template group is loaded
   * at most once, before every compile, and every compile uses that group.
   */
  lemma EventOrder(args: seq<string>, cfg: Config, w: World)
    ensures var t := Execute(args, cfg, w).trace;
            && (forall i, j :: 0 <= i < j < |t| && t[j].Delete? ==> t[i].Delete?)
            && (forall i, j :: 0 <= i < |t| && 0 <= j < |t| && t[i].LoadTemplates? && t[j].LoadTemplates? ==> i == j)
            && (forall i, j :: 0 <= i < |t| && 0 <= j < |t| && t[i].LoadTemplates? && t[j].Compile? ==>
                  i < j && t[j].templates == t[i].group)
            && (forall j :: 0 <= j < |t| && t[j].Compile? ==> exists i :: 0 <= i < j && t[i].LoadTemplates?)
  {
    RunIsBatchOrAbort(args, cfg, w);
    var c := Check(args, w);
    if c.Accepted? {
      BatchTrace(c.names, c.wsdlDir, c.jarDir, cfg, w);
    }
  }

  // ---------------------------------------------------------------------------
  // The compile loop
  // ---------------------------------------------------------------------------

  /**
   * The compiler is called in listing order, at most once per file: call k
   * compiles the k-th listed wsdl path into the k-th jar path, with the
   * configured package prefix and standalone flag, the shared template
   * group, no listener and the quiet flag set.
   */
  lemma CompilesFollowListing(args: seq<string>, cfg: Config, w: World)
    requires Check(args, w).Accepted?
    ensures var c := Check(args, w);
            var calls := Compiles(Execute(args, cfg, w).trace);
            && |calls| <= |c.names|
            && forall k :: 0 <= k < |calls| ==>
                 calls[k] == Compile(Join(c.wsdlDir, c.names[k]), Join(c.jarDir, JarName(c.names[k])),
                                     cfg.packagePrefix, cfg.standAlone, TemplateGroup(cfg), false, true)
  {
    RunIsBatchOrAbort(args, cfg, w);
    var c := Check(args, w);
    BatchCompiles(c.names, c.wsdlDir, c.jarDir, cfg, w);
  }

  /**
   * When the listing holds distinct plain file names, as a directory listing
   * does, no input path is compiled twice. Paths are directory, "/" and name,
   * so this holds of the program when no wsdl name in the directory is a
   * symbolic link.
   */
  lemma EachInputCompiledOnce(args: seq<string>, cfg: Config, w: World)
    requires Check(args, w).Accepted?
    requires var names := Check(args, w).names;
             forall k :: 0 <= k < |names| ==> '/' !in names[k]
    requires var names := Check(args, w).names;
             forall i, j :: 0 <= i < j < |names| ==> names[i] != names[j]
    ensures var calls := Compiles(Execute(args, cfg, w).trace);
            forall i, j :: 0 <= i < j < |calls| ==> calls[i].wsdlPath != calls[j].wsdlPath
  {
    CompilesFollowListing(args, cfg, w);
    var c := Check(args, w);
    var calls := Compiles(Execute(args, cfg, w).trace);
    forall i, j | 0 <= i < j < |calls| ensures calls[i].wsdlPath != calls[j].wsdlPath {
      if calls[i].wsdlPath == calls[j].wsdlPath {
        JoinInjective(c.wsdlDir, c.names[i], c.wsdlDir, c.names[j]);
      }
    }
  }

  /**
   * Fail-fast: when call n throws, no call after n is made, the run exits with
   * status 1, and the failure names the first call that threw.
   */
  lemma FailFast(args: seq<string>, cfg: Config, w: World, n: nat)
    requires Check(args, w).Accepted? && n < |Check(args, w).names| && w.compileThrows(n)
    ensures var o := Execute(args, cfg, w);
            var calls := Compiles(o.trace);
            && o.exitCode == FailureExit
            && o.reason.CompilationFailure? && o.reason.index <= n && w.compileThrows(o.reason.index)
            && |calls| == o.reason.index + 1 && |calls| <= n + 1
            && forall k :: 0 <= k < o.reason.index ==> !w.compileThrows(k)
  {
    RunIsBatchOrAbort(args, cfg, w);
    var c := Check(args, w);
    BatchCompiles(c.names, c.wsdlDir, c.jarDir, cfg, w);
  }

  /**
   * The run exits with status 0 exactly when every check passes and no
   * compiler call throws; then every listed file is compiled.
   */
  lemma SuccessIffEveryCompileSucceeds(args: seq<string>, cfg: Config, w: World)
    ensures var c := Check(args, w);
            var o := Execute(args, cfg, w);
            o.exitCode == SuccessExit <==>
              c.Accepted? && forall k :: 0 <= k < |c.names| ==> !w.compileThrows(k)
    ensures var c := Check(args, w);
            var o := Execute(args, cfg, w);
            o.exitCode == SuccessExit ==>
              c.Accepted? && o.reason == Completed && |Compiles(o.trace)| == |c.names|
  {
    RunIsBatchOrAbort(args, cfg, w);
    var c := Check(args, w);
    if c.Accepted? {
      BatchCompiles(c.names, c.wsdlDir, c.jarDir, cfg, w);
    }
  }

  /**
   * The driver never reads the result of a deletion: for the same compiler
   * answers, the same compiles happen, with the same exit status and the same
   * reason.
   */
  lemma DeleteResultIgnored(args: seq<string>, cfg: Config, w: World, deleteSucceeds: string -> bool)
    ensures var o := Execute(args, cfg, w);
            var o' := Execute(args, cfg, w.(deleteSucceeds := deleteSucceeds));
            o'.exitCode == o.exitCode && o'.reason == o.reason && Compiles(o'.trace) == Compiles(o.trace)
  {
    var w' := w.(deleteSucceeds := deleteSucceeds);
    assert Check(args, w') == Check(args, w);
    RunIsBatchOrAbort(args, cfg, w);
    RunIsBatchOrAbort(args, cfg, w');
    var c := Check(args, w);
    if c.Accepted? {
      BatchCompiles(c.names, c.wsdlDir, c.jarDir, cfg, w);
      BatchCompiles(c.names, c.wsdlDir, c.jarDir, cfg, w');
    }
  }
}
