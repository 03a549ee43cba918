/** The enhancement task of the io.ebean.idea.ebean10 generation
    (src/main/java/io/ebean/idea/ebean10/plugin/EbeanEnhancementTask.java).
    For every entry of the expanded compiled-class table, in table order, it
    reads the class file, hands it to the weaver under its slashed name, and
    writes the weaver's bytes back. An exception for one class is reported
    and the loop goes on; an `Error` ends the loop with one report. */
module IoEnhancementTask {
  import opened Common
  import opened Text
  import opened ClassNames
  import opened Weaving
  import IoCollector

  /** The messages the task adds to the compile context. */
  datatype Message =
    | Started(debugLevel: int)                    // "Ebean 11+ enhancement started, packages - ..."
    | WeaverLog(line: string)                     // a line of the weaver's log sink
    | EnhancedClass(className: string)            // "enhanced: " + className
    | OutputFileNotFound(file: File)              // "OutputFile not found for: " + file
    | EnhanceFailed(className: string, cause: Cause) // "Exception trying to enhance:" + className + ...
    | Aborted(detail: string)                     // "Exception trying to enhance. Please try Build -> Rebuild Project, ..."
    | Done                                        // "Ebean enhancement done!  fbHits:..."

  /** `debugLevel`: 3 when the log traces, else 1 when it debugs, else 0. */
  function DebugLevel(traceEnabled: bool, debugEnabled: bool): (level: int)
    ensures level == 3 <==> traceEnabled
    ensures level == 1 <==> !traceEnabled && debugEnabled
    ensures level == 0 <==> !traceEnabled && !debugEnabled
  {
    if traceEnabled then 3 else if debugEnabled then 1 else 0
  }

  /** What one run of the loop works with: the weaver, the debug level, and
      the files `VfsUtil.findFileByIoFile` resolves. */
  datatype Env = Env(transform: (string, Bytes) -> Transformed, debugLevel: int, resolvable: set<File>)

  /** The file system and the compile context's messages. */
  datatype State = State(disk: map<File, Bytes>, messages: seq<Message>)

  /** The result of one class: go on, or an `Error` escaped with its message. */
  datatype Step = Continue(state: State) | Abort(state: State, detail: string)

  /** The weaver's log lines as messages. */
  function WeaverLogs(lines: seq<string>): (ms: seq<Message>)
    ensures |ms| == |lines| && forall i :: 0 <= i < |ms| ==> ms[i] == WeaverLog(lines[i])
  {
    MapSeq((line: string) => WeaverLog(line), lines)
  }

  /** The weaver's answer for an entry whose file can be read. */
  function Answer(env: Env, disk: map<File, Bytes>, e: Entry): Transformed
    requires e.1 in disk
  {
    env.transform(Slashed(e.0), disk[e.1])
  }

  /** The bytes the entry's file receives: the weaver's bytes, when it
      returned some and the file resolves in the virtual file system. */
  function WrittenBytes(env: Env, disk: map<File, Bytes>, e: Entry): Option<Bytes> {
    if e.1 in disk && Answer(env, disk, e).outcome.Enhanced? && e.1 in env.resolvable
    then Some(Answer(env, disk, e).outcome.bytes) else None
  }

  /** The weaver threw an `Error` for the entry. */
  predicate Fatal(env: Env, disk: map<File, Bytes>, e: Entry) {
    e.1 in disk && Answer(env, disk, e).outcome.Raised? && Answer(env, disk, e).outcome.fault.FatalError?
  }

  /** The weaver threw an `Exception` for the entry, which is contained. */
  predicate Contained(env: Env, disk: map<File, Bytes>, e: Entry) {
    e.1 in disk && Answer(env, disk, e).outcome.Raised? && !Answer(env, disk, e).outcome.fault.FatalError?
  }

  /** `processEnhancement`, with `writeTransformed`: only the entry's own
      file changes, and only to the weaver's bytes; messages are only ever
      appended; only an `Error` escapes. An unreadable file is reported
      under the dotted name and nothing else is added; above debug level 0
      the weaver's log comes first; an enhanced class ends with its
      "enhanced" message and a contained `Exception` with its report, both
      under the slashed name. */
  function Enhance(env: Env, s: State, e: Entry): (r: Step)
    ensures r.state.disk == if WrittenBytes(env, s.disk, e).Some? then s.disk[e.1 := WrittenBytes(env, s.disk, e).value] else s.disk
    ensures r.Abort? <==> Fatal(env, s.disk, e)
    ensures r.Abort? ==> r.detail == Answer(env, s.disk, e).outcome.fault.message
    ensures s.messages <= r.state.messages
    ensures e.1 !in s.disk ==> r.state.messages == s.messages + [EnhanceFailed(e.0, Unreadable)]
    ensures e.1 in s.disk && env.debugLevel > 0 ==> s.messages + WeaverLogs(Answer(env, s.disk, e).log) <= r.state.messages
    ensures e.1 in s.disk && Answer(env, s.disk, e).outcome.Enhanced? ==> EndsIn(r.state.messages, EnhancedClass(Slashed(e.0)))
    ensures e.1 in s.disk && Answer(env, s.disk, e).outcome.Enhanced? && e.1 !in env.resolvable ==>
              |r.state.messages| >= |s.messages| + 2 && r.state.messages[|r.state.messages| - 2] == OutputFileNotFound(e.1)
    ensures Contained(env, s.disk, e) ==> EndsIn(r.state.messages, EnhanceFailed(Slashed(e.0), Thrown(Answer(env, s.disk, e).outcome.fault)))
  {
    var (className, file) := e;
    if file !in s.disk then Continue(State(s.disk, s.messages + [EnhanceFailed(className, Unreadable)]))
    else
      var name := Slashed(className);
      var t := env.transform(name, s.disk[file]);
      var logged := s.messages + (if env.debugLevel > 0 then WeaverLogs(t.log) else []);
      match t.outcome
      case Unchanged => Continue(State(s.disk, logged))
      case Enhanced(b) =>
        if file in env.resolvable then Continue(State(s.disk[file := b], logged + [EnhancedClass(name)]))
        else Continue(State(s.disk, logged + [OutputFileNotFound(file), EnhancedClass(name)]))
      case Raised(f) =>
        if f.FatalError? then Abort(State(s.disk, logged), f.message)
        else Continue(State(s.disk, logged + [EnhanceFailed(name, Thrown(f))]))
  }

  /** The loop of `doProcess` over the entries, as a specification: "done"
      after the last entry, or the abort report after an `Error`. */
  function Run(env: Env, s: State, entries: seq<Entry>): (r: State)
    ensures s.messages < r.messages
    decreases |entries|
  {
    if entries == [] then State(s.disk, s.messages + [Done])
    else
      match Enhance(env, s, entries[0])
      case Continue(next) => Run(env, next, entries[1..])
      case Abort(next, detail) => State(next.disk, next.messages + [Aborted(detail)])
  }

  /** A file that is not in the table is never touched. */
  lemma {:induction false} RunUntouched(env: Env, s: State, entries: seq<Entry>, f: File)
    requires NotInTable(f, entries)
    ensures SameAt(Run(env, s, entries).disk, s.disk, f)
    decreases |entries|
  {
    if entries != [] {
      match Enhance(env, s, entries[0])
      case Continue(next) =>
        assert NotInTable(f, entries[1..]) by {
          forall i | 0 <= i < |entries[1..]| ensures entries[1..][i].1 != f {
            assert entries[1..][i] == entries[i + 1];
          }
        }
        RunUntouched(env, next, entries[1..], f);
      case Abort(next, detail) =>
    }
  }

  /** With distinct files, the file of entry `i` ends with the weaver's bytes
      exactly when the weaver returned bytes for it and the file resolves,
      and keeps its contents otherwise, as long as no earlier entry ended
      the loop. */
  lemma {:induction false} RunFileContents(env: Env, s: State, entries: seq<Entry>, i: nat)
    requires i < |entries| && DistinctFiles(entries)
    requires forall j :: 0 <= j < i ==> !Fatal(env, s.disk, entries[j])
    ensures var f, r := entries[i].1, Run(env, s, entries);
            match WrittenBytes(env, s.disk, entries[i])
            case Some(b) => f in r.disk && r.disk[f] == b
            case None => SameAt(r.disk, s.disk, f)
    decreases |entries|
  {
    var rest := entries[1..];
    assert DistinctFiles(rest) by {
      forall a, b | 0 <= a < b < |rest| ensures rest[a].1 != rest[b].1 {
        assert rest[a] == entries[a + 1] && rest[b] == entries[b + 1];
      }
    }
    if i == 0 {
      match Enhance(env, s, entries[0])
      case Continue(next) =>
        assert NotInTable(entries[0].1, rest) by {
          forall j | 0 <= j < |rest| ensures rest[j].1 != entries[0].1 {
            assert rest[j] == entries[j + 1];
          }
        }
        RunUntouched(env, next, rest, entries[0].1);
      case Abort(next, detail) =>
    }
    else {
      assert !Fatal(env, s.disk, entries[0]);
      var next := Enhance(env, s, entries[0]).state;
      assert entries[0].1 != entries[i].1;
      assert rest[i - 1] == entries[i];
      assert SameAt(next.disk, s.disk, entries[i].1);
      assert WrittenBytes(env, next.disk, rest[i - 1]) == WrittenBytes(env, s.disk, entries[i]);
      forall j | 0 <= j < i - 1 ensures !Fatal(env, next.disk, rest[j]) {
        assert rest[j] == entries[j + 1];
        assert entries[0].1 != entries[j + 1].1;
        assert SameAt(next.disk, s.disk, rest[j].1);
      }
      RunFileContents(env, next, rest, i - 1);
    }
  }

  /** With distinct files, as long as no earlier entry ended the loop, the
      run reports what happened to entry `i`: an unreadable file, an
      enhanced class, or a contained `Exception`, so one failing class is
      reported and the loop goes on to the next. */
  lemma {:induction false} RunReports(env: Env, s: State, entries: seq<Entry>, i: nat)
    requires i < |entries| && DistinctFiles(entries)
    requires forall j :: 0 <= j < i ==> !Fatal(env, s.disk, entries[j])
    ensures var ms, e := Run(env, s, entries).messages, entries[i];
            && (e.1 !in s.disk ==> EnhanceFailed(e.0, Unreadable) in ms)
            && (e.1 in s.disk && Answer(env, s.disk, e).outcome.Enhanced? ==> EnhancedClass(Slashed(e.0)) in ms)
            && (Contained(env, s.disk, e) ==> EnhanceFailed(Slashed(e.0), Thrown(Answer(env, s.disk, e).outcome.fault)) in ms)
    decreases |entries|
  {
    var rest := entries[1..];
    var next := Enhance(env, s, entries[0]).state;
    var e := entries[i];
    if i == 0 {
      if !Fatal(env, s.disk, e) {
        assert Run(env, s, entries) == Run(env, next, rest);
        var ms := Run(env, next, rest).messages;
        if e.1 !in s.disk {
          EndsInKept(next.messages, ms, EnhanceFailed(e.0, Unreadable));
        } else if Answer(env, s.disk, e).outcome.Enhanced? {
          EndsInKept(next.messages, ms, EnhancedClass(Slashed(e.0)));
        } else if Contained(env, s.disk, e) {
          EndsInKept(next.messages, ms, EnhanceFailed(Slashed(e.0), Thrown(Answer(env, s.disk, e).outcome.fault)));
        }
      }
    } else {
      DistinctRest(entries);
      assert !Fatal(env, s.disk, entries[0]);
      assert Run(env, s, entries) == Run(env, next, rest);
      assert entries[0].1 != e.1;
      assert rest[i - 1] == e;
      assert SameAt(next.disk, s.disk, e.1);
      forall j | 0 <= j < i - 1 ensures !Fatal(env, next.disk, rest[j]) {
        assert rest[j] == entries[j + 1];
        assert entries[0].1 != entries[j + 1].1;
        assert SameAt(next.disk, s.disk, rest[j].1);
      }
      RunReports(env, next, rest, i - 1);
    }
  }

  /** With distinct files and no entry for which the weaver throws an
      `Error`, the run ends with "done". */
  lemma {:induction false} RunCompletes(env: Env, s: State, entries: seq<Entry>)
    requires DistinctFiles(entries)
    requires forall i :: 0 <= i < |entries| ==> !Fatal(env, s.disk, entries[i])
    ensures var ms := Run(env, s, entries).messages; ms[|ms| - 1] == Done
    decreases |entries|
  {
    if entries != [] {
      var next := Enhance(env, s, entries[0]).state;
      DistinctRest(entries);
      FatalShifts(env, s, entries, next);
      assert Run(env, s, entries) == Run(env, next, entries[1..]);
      RunCompletes(env, next, entries[1..]);
    }
  }

  /** With distinct files, when entry `k` is the first for which the weaver
      throws an `Error`, the run ends with one abort report carrying that
      `Error`'s message, and so not with "done". */
  lemma {:induction false} RunAbortsAt(env: Env, s: State, entries: seq<Entry>, k: nat)
    requires DistinctFiles(entries) && k < |entries|
    requires Fatal(env, s.disk, entries[k])
    requires forall j :: 0 <= j < k ==> !Fatal(env, s.disk, entries[j])
    ensures var ms := Run(env, s, entries).messages;
            ms[|ms| - 1] == Aborted(Answer(env, s.disk, entries[k]).outcome.fault.message)
    decreases |entries|
  {
    if k > 0 {
      var next := Enhance(env, s, entries[0]).state;
      var rest := entries[1..];
      DistinctRest(entries);
      FatalShifts(env, s, entries, next);
      assert Run(env, s, entries) == Run(env, next, rest);
      assert rest[k - 1] == entries[k];
      forall j | 0 <= j < k - 1 ensures !Fatal(env, next.disk, rest[j]) {
        assert rest[j] == entries[j + 1];
      }
      RunAbortsAt(env, next, rest, k - 1);
    }
  }

  /** After the first entry, the later entries see the disk as it was:
      their files are not the first entry's, so whether the weaver throws
      an `Error` for them, and what it answers then, is unchanged. */
  lemma FatalShifts(env: Env, s: State, entries: seq<Entry>, next: State)
    requires entries != [] && DistinctFiles(entries)
    requires next.disk == Enhance(env, s, entries[0]).state.disk
    ensures forall j :: 0 <= j < |entries| - 1 ==>
              && Fatal(env, next.disk, entries[1..][j]) == Fatal(env, s.disk, entries[j + 1])
              && (Fatal(env, s.disk, entries[j + 1]) ==> Answer(env, next.disk, entries[1..][j]) == Answer(env, s.disk, entries[j + 1]))
  {
    var rest := entries[1..];
    forall j | 0 <= j < |rest|
      ensures Fatal(env, next.disk, rest[j]) == Fatal(env, s.disk, entries[j + 1])
      ensures Fatal(env, s.disk, entries[j + 1]) ==> Answer(env, next.disk, rest[j]) == Answer(env, s.disk, entries[j + 1])
    {
      assert rest[j] == entries[j + 1];
      assert entries[0].1 != entries[j + 1].1;
      assert SameAt(next.disk, s.disk, rest[j].1);
    }
  }

  /** The weaver's log sink is connected only above debug level 0: at level
      0 a run adds no weaver log line. */
  lemma {:induction false} QuietWeaver(env: Env, s: State, entries: seq<Entry>)
    requires env.debugLevel <= 0
    ensures forall i :: |s.messages| <= i < |Run(env, s, entries).messages| ==> !Run(env, s, entries).messages[i].WeaverLog?
    decreases |entries|
  {
    if entries != [] {
      match Enhance(env, s, entries[0])
      case Continue(next) =>
        assert forall i :: |s.messages| <= i < |next.messages| ==> !next.messages[i].WeaverLog?;
        QuietWeaver(env, next, entries[1..]);
      case Abort(next, detail) =>
    }
  }

  /** An output directory as `addFileSystemUrl` sees it. */
  datatype OutDir = OutDir(url: string, isDirectory: bool)

  /** The URL `addFileSystemUrl` adds for an output directory: a directory
      URL without a trailing '/' gets one, and on Windows ('\' as the file
      separator) "file://" becomes "file:/". */
  function DirectoryUrl(outDir: OutDir, windows: bool): (url: string)
    ensures outDir.isDirectory ==> url != [] && url[|url| - 1] == '/'
    ensures !windows ==> url == if outDir.isDirectory && !EndsWith(outDir.url, "/") then outDir.url + "/" else outDir.url
    ensures windows ==>
              url == ReplaceAll(if outDir.isDirectory && !EndsWith(outDir.url, "/") then outDir.url + "/" else outDir.url, "file://", "file:/")
  {
    var url := if outDir.isDirectory && !EndsWith(outDir.url, "/") then outDir.url + "/" else outDir.url;
    if windows then
      WindowsUrlKeepsSlash(url);
      ReplaceAll(url, "file://", "file:/")
    else url
  }

  /** The Windows rewriting keeps a trailing '/'. */
  lemma WindowsUrlKeepsSlash(url: string)
    ensures url != [] && url[|url| - 1] == '/' ==>
              var r := ReplaceAll(url, "file://", "file:/"); r != [] && r[|r| - 1] == '/'
  {
    if url != [] && url[|url| - 1] == '/' {
      ReplaceAllKeepsLast(url, "file://", "file:/", '/');
    }
  }

  /** On Windows a "file://" URL whose path holds no further "file://"
      becomes the "file:/" URL of the same path. */
  lemma WindowsUrl(p: string)
    requires forall k :: 0 <= k <= |p| ==> !StartsWith(p[k..], "file://")
    ensures ReplaceAll("file://" + p, "file://", "file:/") == "file:/" + p
  {
    var s := "file://" + p;
    assert StartsWith(s, "file://") && s[|"file://"|..] == p;
    ReplaceAllNoOccurrence(p, "file://", "file:/");
  }

  /** On Windows the output directory "file://" + p, with p not ending in
      '/', is added as "file:/" + p + "/" (for example "file://C:/out"
      becomes "file:/C:/out/"), when the path with its slash holds no
      further "file://". */
  lemma WindowsDirectoryUrl(p: string)
    requires p != [] && p[|p| - 1] != '/'
    requires forall k :: 0 <= k <= |p + "/"| ==> !StartsWith((p + "/")[k..], "file://")
    ensures DirectoryUrl(OutDir("file://" + p, true), true) == "file:/" + (p + "/")
  {
    var u := "file://" + p;
    assert !EndsWith(u, "/") by { assert u[|u| - 1] == p[|p| - 1]; }
    assert u + "/" == "file://" + (p + "/");
    WindowsUrl(p + "/");
  }

  /** Off Windows the rewriting is idempotent: a URL it produced is kept. */
  lemma DirectoryUrlIdempotent(outDir: OutDir)
    ensures DirectoryUrl(OutDir(DirectoryUrl(outDir, false), outDir.isDirectory), false) == DirectoryUrl(outDir, false)
  {
    var url := DirectoryUrl(outDir, false);
    if outDir.isDirectory {
      assert url[|url| - 1..] == "/";
    }
  }

  /** What `buildClassLoader` reads of one affected module: its main and
      test output directories (either may be null) and the paths of its
      dependencies. */
  datatype ModuleRoots = ModuleRoots(output: Option<OutDir>, testOutput: Option<OutDir>, paths: seq<string>)

  /** The URLs one module contributes, in order: main output, test output,
      then each dependency path as `File.toURI().toURL()` (`fileUrl`)
      gives it. */
  function ModuleUrls(m: ModuleRoots, windows: bool, fileUrl: string -> string): seq<string> {
    (if m.output.Some? then [DirectoryUrl(m.output.value, windows)] else [])
    + (if m.testOutput.Some? then [DirectoryUrl(m.testOutput.value, windows)] else [])
    + MapSeq(fileUrl, m.paths)
  }

  function ModuleUrlsOf(windows: bool, fileUrl: string -> string): ModuleRoots -> seq<string> {
    m => ModuleUrls(m, windows, fileUrl)
  }

  /** The class path `buildClassLoader` builds: the modules' URLs, module
      after module. */
  function ClassPath(modules: seq<ModuleRoots>, windows: bool, fileUrl: string -> string): seq<string> {
    Flatten(MapSeq(ModuleUrlsOf(windows, fileUrl), modules))
  }

  /** The class path of a concatenation is the concatenation of the class
      paths. */
  lemma ClassPathAppend(a: seq<ModuleRoots>, b: seq<ModuleRoots>, windows: bool, fileUrl: string -> string)
    ensures ClassPath(a + b, windows, fileUrl) == ClassPath(a, windows, fileUrl) + ClassPath(b, windows, fileUrl)
  {
    var f := ModuleUrlsOf(windows, fileUrl);
    MapSeqAppend(f, a, b);
    FlattenAppend(MapSeq(f, a), MapSeq(f, b));
  }

  /** One module's class path is its own URLs. */
  lemma ClassPathOne(m: ModuleRoots, windows: bool, fileUrl: string -> string)
    ensures ClassPath([m], windows, fileUrl) == ModuleUrls(m, windows, fileUrl)
  {
    var ys := MapSeq(ModuleUrlsOf(windows, fileUrl), [m]);
    assert ys == [ModuleUrls(m, windows, fileUrl)];
    assert ys[..0] == [];
    assert Flatten(ys) == Flatten(ys[..0]) + ys[0];
  }

  /** Each module's URLs form one block, in module order: module `k`'s
      come after those of the modules before it and before those of the
      modules after it. */
  lemma ClassPathOrder(modules: seq<ModuleRoots>, k: nat, windows: bool, fileUrl: string -> string)
    requires k < |modules|
    ensures ClassPath(modules, windows, fileUrl)
            == ClassPath(modules[..k], windows, fileUrl) + ModuleUrls(modules[k], windows, fileUrl) + ClassPath(modules[k + 1..], windows, fileUrl)
  {
    assert modules == modules[..k] + [modules[k]] + modules[k + 1..];
    ClassPathAppend(modules[..k] + [modules[k]], modules[k + 1..], windows, fileUrl);
    ClassPathAppend(modules[..k], [modules[k]], windows, fileUrl);
    ClassPathOne(modules[k], windows, fileUrl);
  }

  /** `addFileSystemUrl`: a null directory adds nothing; otherwise its URL
      is appended. */
  method AddFileSystemUrl(out: seq<string>, outDir: Option<OutDir>, windows: bool) returns (r: seq<string>)
    ensures r == out + (if outDir.Some? then [DirectoryUrl(outDir.value, windows)] else [])
  {
    r := out;
    if outDir.Some? {
      r := r + [DirectoryUrl(outDir.value, windows)];
    }
  }

  /** `addModulePaths`: every dependency path of the module, in order. */
  method AddModulePaths(out: seq<string>, paths: seq<string>, fileUrl: string -> string) returns (r: seq<string>)
    ensures r == out + MapSeq(fileUrl, paths)
  {
    r := out;
    var i := 0;
    while i < |paths|
      invariant 0 <= i <= |paths|
      invariant r == out + MapSeq(fileUrl, paths[..i])
    {
      assert paths[..i + 1][..i] == paths[..i];
      r := r + [fileUrl(paths[i])];
      i := i + 1;
    }
    assert paths[..|paths|] == paths;
  }

  /** The body of the loop in `buildClassLoader`: the module's main
      output, its test output, then its dependency paths. */
  method AddModuleUrls(out: seq<string>, m: ModuleRoots, windows: bool, fileUrl: string -> string) returns (r: seq<string>)
    ensures r == out + ModuleUrls(m, windows, fileUrl)
  {
    r := AddFileSystemUrl(out, m.output, windows);
    r := AddFileSystemUrl(r, m.testOutput, windows);
    r := AddModulePaths(r, m.paths, fileUrl);
  }

  /** `buildClassLoader`: the URL list, for each affected module in turn,
      its main output, its test output, and its dependency paths. */
  method BuildClassPath(modules: seq<ModuleRoots>, windows: bool, fileUrl: string -> string) returns (out: seq<string>)
    ensures out == ClassPath(modules, windows, fileUrl)
  {
    out := [];
    var i := 0;
    while i < |modules|
      invariant 0 <= i <= |modules|
      invariant out == ClassPath(modules[..i], windows, fileUrl)
    {
      var m := modules[i];
      assert modules[..i + 1] == modules[..i] + [m];
      ClassPathAppend(modules[..i], [m], windows, fileUrl);
      ClassPathOne(m, windows, fileUrl);
      out := AddModuleUrls(out, m, windows, fileUrl);
      i := i + 1;
    }
    assert modules[..|modules|] == modules;
  }

  /** The task: the expanded table from the collector, the weaver, the
      files that resolve in the virtual file system, and the state it
      changes, the class files on disk and the compile context's messages. */
  class Task {
    const compiledClasses: IoCollector.Table
    const transform: (string, Bytes) -> Transformed
    const resolvable: set<File>
    var disk: map<File, Bytes>
    var messages: seq<Message>

    constructor (compiledClasses: IoCollector.Table, transform: (string, Bytes) -> Transformed, resolvable: set<File>,
                 disk: map<File, Bytes>, messages: seq<Message>)
      ensures this.compiledClasses == compiledClasses && this.transform == transform && this.resolvable == resolvable
      ensures this.disk == disk && this.messages == messages
    {
      this.compiledClasses := compiledClasses;
      this.transform := transform;
      this.resolvable := resolvable;
      this.disk := disk;
      this.messages := messages;
    }

    /** `process`: nothing is scheduled for an empty table; otherwise the
        enhancement runs at the debug level the log's settings give. */
    method Process(traceEnabled: bool, debugEnabled: bool)
      modifies this`disk, this`messages
      ensures compiledClasses == [] ==> disk == old(disk) && messages == old(messages)
      ensures compiledClasses != [] ==>
                var env := Env(transform, DebugLevel(traceEnabled, debugEnabled), resolvable);
                State(disk, messages) == Run(env, State(old(disk), old(messages) + [Started(env.debugLevel)]), compiledClasses)
    {
      if compiledClasses != [] {
        DoProcess(DebugLevel(traceEnabled, debugEnabled));
      }
    }

    /** `doProcess`: the start message, then every entry in table order
        until an `Error` escapes. */
    method DoProcess(debugLevel: int)
      modifies this`disk, this`messages
      ensures State(disk, messages) == Run(Env(transform, debugLevel, resolvable), State(old(disk), old(messages) + [Started(debugLevel)]), compiledClasses)
    {
      var env := Env(transform, debugLevel, resolvable);
      messages := messages + [Started(debugLevel)];
      ghost var start := State(disk, messages);
      var i := 0;
      while i < |compiledClasses|
        invariant 0 <= i <= |compiledClasses|
        invariant Run(env, State(disk, messages), compiledClasses[i..]) == Run(env, start, compiledClasses)
      {
        ghost var before := State(disk, messages);
        assert compiledClasses[i..][0] == compiledClasses[i] && compiledClasses[i..][1..] == compiledClasses[i + 1..];
        var fatal := ProcessEnhancement(env, compiledClasses[i].0, compiledClasses[i].1);
        if fatal.Some? {
          messages := messages + [Aborted(fatal.value)];
          return;
        }
        i := i + 1;
      }
      messages := messages + [Done];
    }

    /** `processEnhancement`: one class; an `Error` is handed back to the
        loop. */
    method ProcessEnhancement(env: Env, className: string, file: File) returns (fatal: Option<string>)
      requires env.transform == transform && env.resolvable == resolvable
      modifies this`disk, this`messages
      ensures match Enhance(env, old(State(disk, messages)), (className, file))
              case Continue(s) => fatal.None? && State(disk, messages) == s
              case Abort(s, detail) => fatal == Some(detail) && State(disk, messages) == s
    {
      if file !in disk {
        messages := messages + [EnhanceFailed(className, Unreadable)];
        return None;
      }
      var name := Slashed(className);
      var t := transform(name, disk[file]);
      if env.debugLevel > 0 {
        messages := messages + WeaverLogs(t.log);
      }
      match t.outcome {
        case Unchanged =>
        case Enhanced(b) =>
          WriteTransformed(file, b);
          messages := messages + [EnhancedClass(name)];
        case Raised(f) =>
          if f.FatalError? {
            return Some(f.message);
          }
          messages := messages + [EnhanceFailed(name, Thrown(f))];
      }
      return None;
    }

    /** `writeTransformed`: a file that resolves gets the bytes; one that
        does not is reported and left alone. */
    method WriteTransformed(file: File, bytes: Bytes)
      modifies this`disk, this`messages
      ensures file in resolvable ==> disk == old(disk)[file := bytes] && messages == old(messages)
      ensures file !in resolvable ==> disk == old(disk) && messages == old(messages) + [OutputFileNotFound(file)]
    {
      if file in resolvable {
        disk := disk[file := bytes];
      } else {
        messages := messages + [OutputFileNotFound(file)];
      }
    }
  }
}
