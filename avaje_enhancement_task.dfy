/** The enhancement task of the org.avaje.idea.ebean generation
    (src/org/avaje/idea/ebean/plugin/EbeanEnhancementTask.java). Each class
    goes through a combined transform (the entity weaver, then the
    query-bean weaver) whose response says whether and by which pass the
    class was changed. Only an `IOException` is contained per class: any
    other `Exception` ends the loop and is reported once by `process`; an
    `Error` escapes unreported. */
module AvajeEnhancementTask {
  import opened Common
  import opened Weaving
  import Avaje10EnhancementTask

  /** What `CompiledFilesAwareClassLoader.loadClass` answers. */
  datatype Loaded =
    | FromSuper                          // `URLClassLoader.loadClass` found the class
    | DefinedFrom(bytes: Bytes)          // defined from the compiled file's bytes
    | NotFound                           // `ClassNotFoundException` from `URLClassLoader.loadClass`

  /** `loadClass`, compiled-first: a name in the compiled table is defined
      from its file; only when it is not in the table, or its file cannot be
      read (which logs an error), is `URLClassLoader.loadClass` asked
      (`superLoads` is what it finds). */
  function LoadClass(superLoads: set<string>, compiledClasses: map<string, File>, disk: map<File, Bytes>, name: string)
    : (r: (Loaded, seq<Message>))
    ensures name in compiledClasses && compiledClasses[name] in disk ==> r == (DefinedFrom(disk[compiledClasses[name]]), [])
    ensures !(name in compiledClasses && compiledClasses[name] in disk) ==> r.0 == if name in superLoads then FromSuper else NotFound
    ensures r.1 != [] <==> name in compiledClasses && compiledClasses[name] !in disk
    ensures r.1 != [] ==> r.1 == [CouldNotRead(compiledClasses[name])]
  {
    var parent := if name in superLoads then FromSuper else NotFound;
    if name !in compiledClasses then (parent, [])
    else
      var f := compiledClasses[name];
      if f in disk then (DefinedFrom(disk[f]), [])
      else (parent, [CouldNotRead(f)])
  }

  /** The two generations' inner loaders differ exactly where a compiled
      class is also visible to the parent: this one defines it from the
      compiled file, the org.avaje.idea.ebean10 one takes the parent's. */
  lemma LoadOrders(superLoads: set<string>, compiledClasses: map<string, File>, disk: map<File, Bytes>, name: string)
    requires name in superLoads && name in compiledClasses && compiledClasses[name] in disk
    ensures LoadClass(superLoads, compiledClasses, disk, name).0 == DefinedFrom(disk[compiledClasses[name]])
    ensures Avaje10EnhancementTask.LoadClass(superLoads, compiledClasses, disk, name).0 == Avaje10EnhancementTask.FromSuper
  {
  }

  const EnhancedPrefix: string := "enhanced: "
  const TypeLabel: string := " type:"

  /** The message for an enhanced class: the class name, then " e" when the
      entity pass changed it and " q" when the query-bean pass did, in that
      order. */
  function EnhancedText(className: string, first: bool, second: bool): (t: string)
    ensures var head := EnhancedPrefix + className + TypeLabel;
            && |t| == |head| + (if first then 2 else 0) + (if second then 2 else 0)
            && t[..|head|] == head
            && (first ==> t[|head|..|head| + 2] == " e")
            && (second ==> t[|t| - 2..] == " q")
  {
    EnhancedPrefix + className + TypeLabel + (if first then " e" else "") + (if second then " q" else "")
  }

  /** The message tells which passes changed the class: two messages for
      the same class are equal exactly when they name the same passes. */
  lemma EnhancedTextFlags(className: string, first1: bool, second1: bool, first2: bool, second2: bool)
    ensures EnhancedText(className, first1, second1) == EnhancedText(className, first2, second2)
            <==> first1 == first2 && second1 == second2
  {
    var t1, t2 := EnhancedText(className, first1, second1), EnhancedText(className, first2, second2);
    if !(first1 == first2 && second1 == second2) && |t1| == |t2| {
      var n := |EnhancedPrefix + className + TypeLabel|;
      assert t1[n + 1] != t2[n + 1];
    }
  }

  /** The combined transform's response: whether the class changed, which
      passes changed it, and the bytes to write. */
  datatype Response = Response(enhanced: bool, first: bool, second: bool, classBytes: Bytes)

  /** The combined transform's answer for one class, and the lines the
      entity weaver wrote to its log sink. */
  datatype Reply = Responded(response: Response) | Threw(fault: Fault)
  datatype Answered = Answered(reply: Reply, log: seq<string>)

  /** The messages the task adds to the compile context. */
  datatype Message =
    | Started                                        // "Ebean 8.x enhancement started ... packages:..."
    | WeaverLog(line: string)                        // a line of the entity weaver's log sink
    | EnhancedClass(text: string)                    // EnhancedText of the class and the response
    | OutputFileNotFound(file: File)                 // "OutputFile not found for: " + file
    | EnhanceFailed(className: string, cause: Cause) // "IOException trying to enhance:" + className + ...
    | CouldNotRead(file: File)                       // "Couldn't read file " + file
    | Done                                           // "Ebean enhancement done!"
    | Failed(fault: Fault)                           // `process`: the exception's class name and message

  /** The combined transform and the files `VfsUtil.findFileByIoFile`
      resolves. */
  datatype Env = Env(transform: (string, Bytes) -> Answered, resolvable: set<File>)

  datatype State = State(disk: map<File, Bytes>, messages: seq<Message>)

  /** The result of one class: go on, or a fault that is no `IOException`
      left the loop. */
  datatype Step = Continue(state: State) | Stopped(state: State, fault: Fault)

  function WeaverLogs(lines: seq<string>): (ms: seq<Message>)
    ensures |ms| == |lines| && forall i :: 0 <= i < |ms| ==> ms[i] == WeaverLog(lines[i])
  {
    MapSeq((line: string) => WeaverLog(line), lines)
  }

  function Answer(env: Env, disk: map<File, Bytes>, e: Entry): Answered
    requires e.1 in disk
  {
    env.transform(e.0, disk[e.1])
  }

  /** The bytes written for an entry: the response's, when it reports the
      class enhanced and the file resolves. */
  function WrittenBytes(env: Env, disk: map<File, Bytes>, e: Entry): Option<Bytes> {
    if e.1 in disk && Answer(env, disk, e).reply.Responded? && Answer(env, disk, e).reply.response.enhanced && e.1 in env.resolvable
    then Some(Answer(env, disk, e).reply.response.classBytes) else None
  }

  /** The transform threw something that is no `IOException`. */
  predicate Stops(env: Env, disk: map<File, Bytes>, e: Entry) {
    e.1 in disk && Answer(env, disk, e).reply.Threw? && !Answer(env, disk, e).reply.fault.IOFault?
  }

  /** The transform threw an `IOException`, which is contained. */
  predicate Contained(env: Env, disk: map<File, Bytes>, e: Entry) {
    e.1 in disk && Answer(env, disk, e).reply.Threw? && Answer(env, disk, e).reply.fault.IOFault?
  }

  /** One iteration of the loop of `doProcess`: only the entry's own file
      changes, and only to the response's bytes; messages are only
      appended; an `IOException` is reported and the loop goes on. An
      unreadable file is reported and nothing else is added; otherwise the
      entity weaver's log comes first; an enhanced class ends with the
      "enhanced" text for its passes and an `IOException` with its report. */
  function Enhance(env: Env, s: State, e: Entry): (r: Step)
    ensures r.state.disk == if WrittenBytes(env, s.disk, e).Some? then s.disk[e.1 := WrittenBytes(env, s.disk, e).value] else s.disk
    ensures r.Stopped? <==> Stops(env, s.disk, e)
    ensures r.Stopped? ==> r.fault == Answer(env, s.disk, e).reply.fault
    ensures s.messages <= r.state.messages
    ensures e.1 !in s.disk ==> r.state.messages == s.messages + [EnhanceFailed(e.0, Unreadable)]
    ensures e.1 in s.disk ==> s.messages + WeaverLogs(Answer(env, s.disk, e).log) <= r.state.messages
    ensures e.1 in s.disk && Answer(env, s.disk, e).reply.Responded? && Answer(env, s.disk, e).reply.response.enhanced ==>
              var resp := Answer(env, s.disk, e).reply.response;
              EndsIn(r.state.messages, EnhancedClass(EnhancedText(e.0, resp.first, resp.second)))
    ensures e.1 in s.disk && Answer(env, s.disk, e).reply.Responded? && Answer(env, s.disk, e).reply.response.enhanced && e.1 !in env.resolvable ==>
              |r.state.messages| >= |s.messages| + 2 && r.state.messages[|r.state.messages| - 2] == OutputFileNotFound(e.1)
    ensures e.1 in s.disk && Answer(env, s.disk, e).reply.Responded? && !Answer(env, s.disk, e).reply.response.enhanced ==>
              r.state.messages == s.messages + WeaverLogs(Answer(env, s.disk, e).log)
    ensures Contained(env, s.disk, e) ==> EndsIn(r.state.messages, EnhanceFailed(e.0, Thrown(Answer(env, s.disk, e).reply.fault)))
  {
    var (className, file) := e;
    if file !in s.disk then Continue(State(s.disk, s.messages + [EnhanceFailed(className, Unreadable)]))
    else
      var t := env.transform(className, s.disk[file]);
      var logged := s.messages + WeaverLogs(t.log);
      match t.reply
      case Responded(resp) =>
        if !resp.enhanced then Continue(State(s.disk, logged))
        else
          var text := EnhancedClass(EnhancedText(className, resp.first, resp.second));
          if file in env.resolvable then Continue(State(s.disk[file := resp.classBytes], logged + [text]))
          else Continue(State(s.disk, logged + [OutputFileNotFound(file), text]))
      case Threw(f) =>
        if f.IOFault? then Continue(State(s.disk, logged + [EnhanceFailed(className, Thrown(f))]))
        else Stopped(State(s.disk, logged), f)
  }

  /** `process` around the loop, as a specification: "done" after the last
      entry; after an `Exception` that is no `IOException`, the rest is
      skipped and `process` reports it; after an `Error`, nothing more. */
  function Run(env: Env, s: State, entries: seq<Entry>): (r: State)
    ensures s.messages <= r.messages
    decreases |entries|
  {
    if entries == [] then State(s.disk, s.messages + [Done])
    else
      match Enhance(env, s, entries[0])
      case Continue(next) => Run(env, next, entries[1..])
      case Stopped(next, f) => if f.OtherException? then State(next.disk, next.messages + [Failed(f)]) else next
  }

  /** No message is a final report ("done" or a failure). */
  ghost predicate NoReport(ms: seq<Message>)
    decreases |ms|
  {
    ms == [] || (!ms[0].Done? && !ms[0].Failed? && NoReport(ms[1..]))
  }

  lemma {:induction false} NoReportOfEach(ms: seq<Message>)
    requires forall i :: 0 <= i < |ms| ==> !ms[i].Done? && !ms[i].Failed?
    ensures NoReport(ms)
    decreases |ms|
  {
    if ms != [] {
      NoReportOfEach(ms[1..]);
    }
  }

  /** One class adds no final report. */
  lemma EnhanceAddsNoReport(env: Env, s: State, e: Entry)
    ensures NoReport(Enhance(env, s, e).state.messages[|s.messages|..])
  {
    NoReportOfEach(Enhance(env, s, e).state.messages[|s.messages|..]);
  }

  lemma {:induction false} NoReportAppend(a: seq<Message>, b: seq<Message>)
    requires NoReport(a) && NoReport(b)
    ensures NoReport(a + b)
    decreases |a|
  {
    if a != [] {
      assert (a + b)[1..] == a[1..] + b;
      NoReportAppend(a[1..], b);
    } else {
      assert a + b == b;
    }
  }

  /** A file that is not in the table is never touched. */
  lemma {:induction false} RunUntouched(env: Env, s: State, entries: seq<Entry>, f: File)
    requires NotInTable(f, entries)
    ensures SameAt(Run(env, s, entries).disk, s.disk, f)
    decreases |entries|
  {
    if entries != [] {
      match Enhance(env, s, entries[0])
      case Continue(next) =>
        assert NotInTable(f, entries[1..]) by {
          forall i | 0 <= i < |entries[1..]| ensures entries[1..][i].1 != f {
            assert entries[1..][i] == entries[i + 1];
          }
        }
        RunUntouched(env, next, entries[1..], f);
      case Stopped(next, fault) =>
    }
  }

  /** After the first entry, the later entries see the disk as it was:
      their files are not the first entry's, so the answers and the stops
      are the same. */
  lemma LaterEntriesSeeSameDisk(env: Env, s: State, entries: seq<Entry>, next: State)
    requires entries != [] && DistinctFiles(entries)
    requires next.disk == Enhance(env, s, entries[0]).state.disk
    ensures forall j :: 0 <= j < |entries| - 1 ==> SameAt(next.disk, s.disk, entries[1..][j].1)
    ensures forall j :: 0 <= j < |entries| - 1 ==> Stops(env, next.disk, entries[1..][j]) == Stops(env, s.disk, entries[j + 1])
    ensures forall j :: 0 <= j < |entries| - 1 && Stops(env, s.disk, entries[j + 1]) ==>
              Answer(env, next.disk, entries[1..][j]) == Answer(env, s.disk, entries[j + 1])
    ensures forall j :: 0 <= j < |entries| - 1 ==> WrittenBytes(env, next.disk, entries[1..][j]) == WrittenBytes(env, s.disk, entries[j + 1])
  {
    var rest := entries[1..];
    forall j | 0 <= j < |rest| ensures SameAt(next.disk, s.disk, rest[j].1) {
      assert rest[j] == entries[j + 1];
      assert entries[0].1 != entries[j + 1].1;
    }
  }

  /** With distinct files, the file of entry `i` is written exactly when the
      response reports it enhanced and the file resolves, with the
      response's bytes, as long as no earlier entry stopped the loop. */
  lemma {:induction false} RunFileContents(env: Env, s: State, entries: seq<Entry>, i: nat)
    requires i < |entries| && DistinctFiles(entries)
    requires forall j :: 0 <= j < i ==> !Stops(env, s.disk, entries[j])
    ensures var f, r := entries[i].1, Run(env, s, entries);
            match WrittenBytes(env, s.disk, entries[i])
            case Some(b) => f in r.disk && r.disk[f] == b
            case None => SameAt(r.disk, s.disk, f)
    decreases |entries|
  {
    var rest := entries[1..];
    DistinctRest(entries);
    if i == 0 {
      match Enhance(env, s, entries[0])
      case Continue(next) =>
        assert NotInTable(entries[0].1, rest) by {
          forall j | 0 <= j < |rest| ensures rest[j].1 != entries[0].1 {
            assert rest[j] == entries[j + 1];
          }
        }
        RunUntouched(env, next, rest, entries[0].1);
      case Stopped(next, fault) =>
    }
    else {
      var next := Enhance(env, s, entries[0]).state;
      LaterEntriesSeeSameDisk(env, s, entries, next);
      assert rest[i - 1] == entries[i];
      RunFileContents(env, next, rest, i - 1);
    }
  }

  /** With distinct files, as long as no earlier entry stopped the loop,
      the run reports what happened to entry `i`: an unreadable file, an
      enhanced class with its passes, or an `IOException`, so such a class
      is reported and the loop goes on to the next. */
  lemma {:induction false} RunReports(env: Env, s: State, entries: seq<Entry>, i: nat)
    requires i < |entries| && DistinctFiles(entries)
    requires forall j :: 0 <= j < i ==> !Stops(env, s.disk, entries[j])
    ensures var ms, e := Run(env, s, entries).messages, entries[i];
            && (e.1 !in s.disk ==> EnhanceFailed(e.0, Unreadable) in ms)
            && (e.1 in s.disk && Answer(env, s.disk, e).reply.Responded? && Answer(env, s.disk, e).reply.response.enhanced ==>
                  var resp := Answer(env, s.disk, e).reply.response;
                  EnhancedClass(EnhancedText(e.0, resp.first, resp.second)) in ms)
            && (Contained(env, s.disk, e) ==> EnhanceFailed(e.0, Thrown(Answer(env, s.disk, e).reply.fault)) in ms)
    decreases |entries|
  {
    var rest := entries[1..];
    var next := Enhance(env, s, entries[0]).state;
    var e := entries[i];
    if i == 0 {
      if !Stops(env, s.disk, e) {
        assert Run(env, s, entries) == Run(env, next, rest);
        var ms := Run(env, next, rest).messages;
        if e.1 !in s.disk {
          EndsInKept(next.messages, ms, EnhanceFailed(e.0, Unreadable));
        } else if Answer(env, s.disk, e).reply.Responded? && Answer(env, s.disk, e).reply.response.enhanced {
          var resp := Answer(env, s.disk, e).reply.response;
          EndsInKept(next.messages, ms, EnhancedClass(EnhancedText(e.0, resp.first, resp.second)));
        } else if Contained(env, s.disk, e) {
          EndsInKept(next.messages, ms, EnhanceFailed(e.0, Thrown(Answer(env, s.disk, e).reply.fault)));
        }
      }
    } else {
      DistinctRest(entries);
      assert !Stops(env, s.disk, entries[0]);
      assert Run(env, s, entries) == Run(env, next, rest);
      LaterEntriesSeeSameDisk(env, s, entries, next);
      assert rest[i - 1] == e;
      forall j | 0 <= j < i - 1 ensures !Stops(env, next.disk, rest[j]) {
        assert rest[j] == entries[j + 1];
      }
      RunReports(env, next, rest, i - 1);
    }
  }

  /** Messages without report in front of a tail that ends in one report
      end in that report, with no other before it. */
  lemma ReportLast(head: seq<Message>, tail: seq<Message>, ms: seq<Message>)
    requires ms == head + tail
    requires NoReport(head) && tail != [] && NoReport(tail[..|tail| - 1])
    ensures ms != [] && ms[|ms| - 1] == tail[|tail| - 1] && NoReport(ms[..|ms| - 1])
  {
    assert ms[..|ms| - 1] == head + tail[..|tail| - 1];
    NoReportAppend(head, tail[..|tail| - 1]);
  }

  /** With distinct files and no entry that stops the loop, the run ends
      with its one "done" and no failure report. */
  lemma {:induction false} RunCompletes(env: Env, s: State, entries: seq<Entry>)
    requires DistinctFiles(entries)
    requires forall j :: 0 <= j < |entries| ==> !Stops(env, s.disk, entries[j])
    ensures EndsWithDone(Run(env, s, entries).messages[|s.messages|..])
    decreases |entries|
  {
    if entries == [] {
      assert Run(env, s, entries).messages[|s.messages|..] == [Done];
    } else {
      var next := Enhance(env, s, entries[0]).state;
      var rest := entries[1..];
      DistinctRest(entries);
      LaterEntriesSeeSameDisk(env, s, entries, next);
      RunCompletes(env, next, rest);
      EnhanceAddsNoReport(env, s, entries[0]);
      RunAfterFirst(env, s, entries);
      DoneLast(s.messages, next.messages, Run(env, next, rest).messages);
    }
  }

  /** After a first entry that does not stop the loop, the run goes on
      with the rest from that entry's state. */
  lemma RunAfterFirst(env: Env, s: State, entries: seq<Entry>)
    requires entries != [] && !Stops(env, s.disk, entries[0])
    ensures Run(env, s, entries) == Run(env, Enhance(env, s, entries[0]).state, entries[1..])
  {
  }

  /** How a run without a stop ends: with one "done", as the last message. */
  ghost predicate EndsWithDone(ms: seq<Message>) {
    ms != [] && ms[|ms| - 1] == Done && NoReport(ms[..|ms| - 1])
  }

  /** A log that gained no report between `a` and `b` and then ended in
      "done" between `b` and `c` ended in "done" between `a` and `c`. */
  lemma DoneLast(a: seq<Message>, b: seq<Message>, c: seq<Message>)
    requires a <= b <= c && NoReport(b[|a|..]) && EndsWithDone(c[|b|..])
    ensures EndsWithDone(c[|a|..])
  {
    GainSplit(a, b, c);
    ReportLast(b[|a|..], c[|b|..], c[|a|..]);
  }

  /** How a run that stopped on fault `f` ends: an `Exception` is reported
      once, as the last message; an `Error` is not reported; "done" never
      is. */
  ghost predicate EndsWithReport(ms: seq<Message>, f: Fault) {
    && (f.OtherException? ==> ms != [] && ms[|ms| - 1] == Failed(f) && NoReport(ms[..|ms| - 1]))
    && (f.FatalError? ==> NoReport(ms))
  }

  /** Messages without report in front keep the ending. */
  lemma ReportPrefix(head: seq<Message>, tail: seq<Message>, f: Fault)
    requires NoReport(head) && EndsWithReport(tail, f)
    ensures EndsWithReport(head + tail, f)
  {
    if f.OtherException? {
      assert (head + tail)[..|head + tail| - 1] == head + tail[..|tail| - 1];
      NoReportAppend(head, tail[..|tail| - 1]);
    } else if f.FatalError? {
      NoReportAppend(head, tail);
    }
  }

  /** When the first entry stops the loop, the run ends with the report of
      that entry's fault. */
  lemma RunStopsAtFirst(env: Env, s: State, entries: seq<Entry>)
    requires entries != [] && Stops(env, s.disk, entries[0])
    ensures EndsWithReport(Run(env, s, entries).messages[|s.messages|..], Answer(env, s.disk, entries[0]).reply.fault)
  {
    var next := Enhance(env, s, entries[0]).state;
    EnhanceAddsNoReport(env, s, entries[0]);
    var head := next.messages[|s.messages|..];
    var f := Answer(env, s.disk, entries[0]).reply.fault;
    if f.OtherException? {
      assert Run(env, s, entries).messages[|s.messages|..] == head + [Failed(f)];
      ReportPrefix(head, [Failed(f)], f);
    }
  }

  /** When a later entry `k` is the first to stop the loop, the run goes on
      from the first entry's state with the rest, where entry `k - 1` is
      the first to stop, on the same fault. */
  lemma StopShifts(env: Env, s: State, entries: seq<Entry>, k: nat)
    requires DistinctFiles(entries) && 0 < k < |entries|
    requires Stops(env, s.disk, entries[k])
    requires forall j :: 0 <= j < k ==> !Stops(env, s.disk, entries[j])
    ensures var next, rest := Enhance(env, s, entries[0]).state, entries[1..];
            && Run(env, s, entries) == Run(env, next, rest)
            && DistinctFiles(rest) && Stops(env, next.disk, rest[k - 1])
            && (forall j :: 0 <= j < k - 1 ==> !Stops(env, next.disk, rest[j]))
            && Answer(env, next.disk, rest[k - 1]) == Answer(env, s.disk, entries[k])
  {
    var rest := entries[1..];
    var next := Enhance(env, s, entries[0]).state;
    DistinctRest(entries);
    LaterEntriesSeeSameDisk(env, s, entries, next);
    forall j | 0 <= j < k - 1 ensures !Stops(env, next.disk, rest[j]) {
      assert rest[j] == entries[j + 1];
    }
    assert rest[k - 1] == entries[k];
  }

  /** With distinct files, when entry `k` is the first to stop the loop,
      an `Exception` is reported exactly once, as the last message, and an
      `Error` not at all; in neither case is "done" reported. */
  lemma {:induction false} RunStopsReport(env: Env, s: State, entries: seq<Entry>, k: nat)
    requires DistinctFiles(entries) && k < |entries|
    requires Stops(env, s.disk, entries[k])
    requires forall j :: 0 <= j < k ==> !Stops(env, s.disk, entries[j])
    ensures EndsWithReport(Run(env, s, entries).messages[|s.messages|..], Answer(env, s.disk, entries[k]).reply.fault)
    decreases |entries|
  {
    if k == 0 {
      RunStopsAtFirst(env, s, entries);
    } else {
      var r := Run(env, s, entries);
      var next := Enhance(env, s, entries[0]).state;
      StopShifts(env, s, entries, k);
      RunStopsReport(env, next, entries[1..], k - 1);
      EnhanceAddsNoReport(env, s, entries[0]);
      GainSplit(s.messages, next.messages, r.messages);
      ReportPrefix(next.messages[|s.messages|..], r.messages[|next.messages|..], Answer(env, s.disk, entries[k]).reply.fault);
    }
  }

  /** With distinct files, when entry `k` is the first to stop the loop,
      the files of all later entries are left as they were. */
  lemma {:induction false} RunStopsSkipsRest(env: Env, s: State, entries: seq<Entry>, k: nat)
    requires DistinctFiles(entries) && k < |entries|
    requires Stops(env, s.disk, entries[k])
    requires forall j :: 0 <= j < k ==> !Stops(env, s.disk, entries[j])
    ensures forall j :: k < j < |entries| ==> SameAt(Run(env, s, entries).disk, s.disk, entries[j].1)
    decreases |entries|
  {
    if k > 0 {
      var rest := entries[1..];
      var next := Enhance(env, s, entries[0]).state;
      StopShifts(env, s, entries, k);
      LaterEntriesSeeSameDisk(env, s, entries, next);
      RunStopsSkipsRest(env, next, rest, k - 1);
      forall j | k < j < |entries| ensures SameAt(Run(env, s, entries).disk, s.disk, entries[j].1) {
        assert rest[j - 1] == entries[j];
      }
    }
  }

  /** The task: the compiled table with its iteration order, the combined
      transform and the resolvable files, and the state it changes. */
  class Task {
    const compiledClasses: map<string, File>
    const order: seq<string>
    const transform: (string, Bytes) -> Answered
    const resolvable: set<File>
    var disk: map<File, Bytes>
    var messages: seq<Message>

    constructor (compiledClasses: map<string, File>, order: seq<string>, transform: (string, Bytes) -> Answered,
                 resolvable: set<File>, disk: map<File, Bytes>, messages: seq<Message>)
      requires IsIterationOrder(compiledClasses, order)
      ensures this.compiledClasses == compiledClasses && this.order == order
      ensures this.transform == transform && this.resolvable == resolvable
      ensures this.disk == disk && this.messages == messages
    {
      this.compiledClasses := compiledClasses;
      this.order := order;
      this.transform := transform;
      this.resolvable := resolvable;
      this.disk := disk;
      this.messages := messages;
    }

    /** `process` with `doProcess`: the start message, then every entry in
        iteration order, then "done", or the report of what stopped the
        loop. */
    method Process()
      requires IsIterationOrder(compiledClasses, order)
      modifies this`disk, this`messages
      ensures State(disk, messages) == Run(Env(transform, resolvable), State(old(disk), old(messages) + [Started]), EntriesOf(compiledClasses, order))
    {
      var env := Env(transform, resolvable);
      var entries := EntriesOf(compiledClasses, order);
      messages := messages + [Started];
      ghost var start := State(disk, messages);
      var i := 0;
      while i < |entries|
        invariant 0 <= i <= |entries|
        invariant Run(env, State(disk, messages), entries[i..]) == Run(env, start, entries)
      {
        assert entries[i..][0] == entries[i] && entries[i..][1..] == entries[i + 1..];
        var stop := ProcessEntry(env, entries[i].0, entries[i].1);
        if stop.Some? {
          if stop.value.OtherException? {
            messages := messages + [Failed(stop.value)];
          }
          return;
        }
        i := i + 1;
      }
      messages := messages + [Done];
    }

    /** The body of the loop for one entry; the fault that left the loop,
        if any. */
    method ProcessEntry(env: Env, className: string, file: File) returns (stop: Option<Fault>)
      requires env.transform == transform && env.resolvable == resolvable
      modifies this`disk, this`messages
      ensures match Enhance(env, old(State(disk, messages)), (className, file))
              case Continue(s) => stop.None? && State(disk, messages) == s
              case Stopped(s, f) => stop == Some(f) && State(disk, messages) == s
    {
      if file !in disk {
        messages := messages + [EnhanceFailed(className, Unreadable)];
        return None;
      }
      var t := transform(className, disk[file]);
      messages := messages + WeaverLogs(t.log);
      match t.reply {
        case Responded(resp) =>
          if resp.enhanced {
            WriteTransformed(file, resp.classBytes);
            messages := messages + [EnhancedClass(EnhancedText(className, resp.first, resp.second))];
          }
        case Threw(f) =>
          if !f.IOFault? {
            return Some(f);
          }
          messages := messages + [EnhanceFailed(className, Thrown(f))];
      }
      return None;
    }

    /** `writeTransformed`: the bytes go to the file when it resolves, and
        an error is reported when it does not. */
    method WriteTransformed(file: File, bytes: Bytes)
      modifies this`disk, this`messages
      ensures file in resolvable ==> disk == old(disk)[file := bytes] && messages == old(messages)
      ensures file !in resolvable ==> disk == old(disk) && messages == old(messages) + [OutputFileNotFound(file)]
    {
      if file in resolvable {
        disk := disk[file := bytes];
      } else {
        messages := messages + [OutputFileNotFound(file)];
      }
    }
  }
}
