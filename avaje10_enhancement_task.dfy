/** The enhancement task of the org.avaje.idea.ebean10 generation
    (src/org/avaje/idea/ebean10/plugin/EbeanEnhancementTask.java). Its debug
    level comes from the "ebean_idea_debug" system property; the weaver
    gets each class under its dotted table name; every `Exception` for one
    class is reported and the loop goes on, while an `Error` escapes the
    task unreported. */
module Avaje10EnhancementTask {
  import opened Common
  import opened Text
  import opened Weaving

  const MinInt: int := -0x8000_0000
  const MaxInt: int := 0x7FFF_FFFF

  predicate IsDigit(c: char) {
    '0' <= c <= '9'
  }

  predicate AllDigits(s: string) {
    forall i :: 0 <= i < |s| ==> IsDigit(s[i])
  }

  /** The value of a string of decimal digits. */
  function DigitsValue(s: string): nat
    requires AllDigits(s)
  {
    if s == [] then 0 else DigitsValue(s[..|s| - 1]) * 10 + (s[|s| - 1] as int - '0' as int)
  }

  /** `Integer.parseInt` in base 10: an optional '-' or '+', then at least
      one digit, and a value that fits in 32 bits; None stands for
      `NumberFormatException`. */
  function ParseInt(s: string): (r: Option<int>)
    ensures r.Some? ==> MinInt <= r.value <= MaxInt
    ensures r.Some? ==> s != [] && (s[0] == '-' || s[0] == '+' || IsDigit(s[0]))
  {
    if s == [] then None
    else
      var signed := s[0] == '-' || s[0] == '+';
      var digits := if signed then s[1..] else s;
      if digits == [] || !AllDigits(digits) then None
      else
        var v: int := if s[0] == '-' then 0 - DigitsValue(digits) as int else DigitsValue(digits);
        if MinInt <= v <= MaxInt then Some(v) else None
  }

  /** The decimal digits of a natural number, most significant first. */
  function ShowNat(n: nat): (s: string)
    ensures s != [] && AllDigits(s)
  {
    if n < 10 then [('0' as int + n) as char] else ShowNat(n / 10) + [('0' as int + n % 10) as char]
  }

  /** An integer as `Integer.toString` writes it. */
  function Show(n: int): string {
    if n < 0 then "-" + ShowNat(-n) else ShowNat(n)
  }

  lemma {:induction false} ShowNatValue(n: nat)
    ensures DigitsValue(ShowNat(n)) == n
  {
    var s := ShowNat(n);
    if n >= 10 {
      ShowNatValue(n / 10);
      assert s[..|s| - 1] == ShowNat(n / 10);
    }
  }

  /** Parsing reads back every 32-bit integer as it is written. */
  lemma ParseShow(n: int)
    requires MinInt <= n <= MaxInt
    ensures ParseInt(Show(n)) == Some(n)
  {
    var s := Show(n);
    if n < 0 {
      ShowNatValue(-n);
      assert s[1..] == ShowNat(-n);
    } else {
      ShowNatValue(n);
      assert IsDigit(s[0]);
    }
  }

  /** Text that is not a number parses to nothing: "", a lone sign, a
      leading non-digit; a sign in front of the digits is read. */
  lemma ParseRejects()
    ensures ParseInt("") == None && ParseInt("-") == None && ParseInt("x1") == None
    ensures ParseInt("+7") == Some(7) && ParseInt("-0") == Some(0)
  {
    assert !AllDigits("x1") by { assert !IsDigit("x1"[0]); }
    assert "+7"[1..] == "7";
    assert "-0"[1..] == "0";
    assert DigitsValue("7") == 7 by { assert "7"[..0] == ""; }
    assert DigitsValue("0") == 0 by { assert "0"[..0] == ""; }
  }

  /** Digits whose value does not fit in 32 bits parse to nothing, with or
      without a sign: 2147483648 does not parse, -2147483648 does. */
  lemma {:induction false} ParseOverflows(n: nat)
    ensures n > MaxInt ==> ParseInt(ShowNat(n)) == None && ParseInt("+" + ShowNat(n)) == None
    ensures ParseInt("-" + ShowNat(n)) == if n <= -MinInt then Some(0 - n as int) else None
  {
    ShowNatValue(n);
    var d := ShowNat(n);
    assert ("+" + d)[1..] == d;
    assert ("-" + d)[1..] == d;
    assert IsDigit(d[0]);
  }

  /** The constructor's debug level: the property's integer value when it
      parses, and 0 when it is absent or does not parse. */
  function DebugLevelOf(property: Option<string>): (level: int)
    ensures property.None? ==> level == 0
    ensures property.Some? && ParseInt(property.value).Some? ==> level == ParseInt(property.value).value
    ensures property.Some? && ParseInt(property.value).None? ==> level == 0
  {
    if property.None? then 0 else ParseInt(property.value).GetOr(0)
  }

  /** What `CompiledFilesAwareClassLoader.loadClass` answers. */
  datatype Loaded =
    | FromSuper                          // `URLClassLoader.loadClass` found the class
    | DefinedFrom(bytes: Bytes)          // defined from the compiled file's bytes
    | NotFound(message: string)          // `ClassNotFoundException`

  /** `loadClass`, parent-first: the compiled table is consulted only when
      `URLClassLoader.loadClass` (already loaded, the parent, then the
      output-directory URLs; `superLoads` is what it finds) fails. A read
      failure logs an error; both misses end in `ClassNotFoundException`. */
  function LoadClass(superLoads: set<string>, compiledClasses: map<string, File>, disk: map<File, Bytes>, name: string)
    : (r: (Loaded, seq<Message>))
    ensures name in superLoads ==> r == (FromSuper, [])
    ensures name !in superLoads && name in compiledClasses && compiledClasses[name] in disk ==>
              r == (DefinedFrom(disk[compiledClasses[name]]), [])
    ensures name !in superLoads && (name !in compiledClasses || compiledClasses[name] !in disk) ==> r.0.NotFound?
    ensures r.1 != [] <==> name !in superLoads && name in compiledClasses && compiledClasses[name] !in disk
  {
    if name in superLoads then (FromSuper, [])
    else if name !in compiledClasses then (NotFound("Could not find class " + name), [])
    else
      var f := compiledClasses[name];
      if f in disk then (DefinedFrom(disk[f]), [])
      else (NotFound("Could not load class " + name), [CouldNotRead(f)])
  }

  /** The messages the task adds to the compile context. */
  datatype Message =
    | Started(debugLevel: int)                       // "Ebean 10.x enhancement started, packages:..."
    | WeaverLog(line: string)                        // a line of the weaver's log sink
    | EnhancedClass(className: string)               // "enhanced: " + className
    | OutputFileNotFound(file: File)                 // "OutputFile not found for: " + file
    | EnhanceFailed(className: string, cause: Cause) // "Exception trying to enhance:" + className + " error:" + ...
    | CouldNotRead(file: File)                       // "Couldn't read file " + file
    | Done                                           // "Ebean enhancement done!"

  /** The weaver and the files `VfsUtil.findFileByIoFile` resolves. */
  datatype Env = Env(transform: (string, Bytes) -> Transformed, resolvable: set<File>)

  /** The file system and the compile context's messages. */
  datatype State = State(disk: map<File, Bytes>, messages: seq<Message>)

  /** The result of one class: go on, or an `Error` escaped. */
  datatype Step = Continue(state: State) | Escaped(state: State)

  function WeaverLogs(lines: seq<string>): (ms: seq<Message>)
    ensures |ms| == |lines| && forall i :: 0 <= i < |ms| ==> ms[i] == WeaverLog(lines[i])
  {
    MapSeq((line: string) => WeaverLog(line), lines)
  }

  /** The weaver's answer for an entry whose file can be read: the name
      goes in its dotted table form. */
  function Answer(env: Env, disk: map<File, Bytes>, e: Entry): Transformed
    requires e.1 in disk
  {
    env.transform(e.0, disk[e.1])
  }

  function WrittenBytes(env: Env, disk: map<File, Bytes>, e: Entry): Option<Bytes> {
    if e.1 in disk && Answer(env, disk, e).outcome.Enhanced? && e.1 in env.resolvable
    then Some(Answer(env, disk, e).outcome.bytes) else None
  }

  predicate Fatal(env: Env, disk: map<File, Bytes>, e: Entry) {
    e.1 in disk && Answer(env, disk, e).outcome.Raised? && Answer(env, disk, e).outcome.fault.FatalError?
  }

  /** The weaver threw an `Exception` for the entry, which is reported. */
  predicate Contained(env: Env, disk: map<File, Bytes>, e: Entry) {
    e.1 in disk && Answer(env, disk, e).outcome.Raised? && !Answer(env, disk, e).outcome.fault.FatalError?
  }

  /** `processEnhancement`: only the entry's own file changes, and only to
      the weaver's bytes; an `Exception` is reported, an `Error` escapes.
      An unreadable file is reported and nothing else is added; otherwise
      the weaver's log always comes first; an enhanced class ends with its
      "enhanced" message and a contained `Exception` with its report. */
  function Enhance(env: Env, s: State, e: Entry): (r: Step)
    ensures r.state.disk == if WrittenBytes(env, s.disk, e).Some? then s.disk[e.1 := WrittenBytes(env, s.disk, e).value] else s.disk
    ensures r.Escaped? <==> Fatal(env, s.disk, e)
    ensures s.messages <= r.state.messages
    ensures e.1 !in s.disk ==> r.state.messages == s.messages + [EnhanceFailed(e.0, Unreadable)]
    ensures e.1 in s.disk ==> s.messages + WeaverLogs(Answer(env, s.disk, e).log) <= r.state.messages
    ensures e.1 in s.disk && Answer(env, s.disk, e).outcome.Enhanced? ==> EndsIn(r.state.messages, EnhancedClass(e.0))
    ensures e.1 in s.disk && Answer(env, s.disk, e).outcome.Enhanced? && e.1 !in env.resolvable ==>
              |r.state.messages| >= |s.messages| + 2 && r.state.messages[|r.state.messages| - 2] == OutputFileNotFound(e.1)
    ensures Contained(env, s.disk, e) ==> EndsIn(r.state.messages, EnhanceFailed(e.0, Thrown(Answer(env, s.disk, e).outcome.fault)))
  {
    var (className, file) := e;
    if file !in s.disk then Continue(State(s.disk, s.messages + [EnhanceFailed(className, Unreadable)]))
    else
      var t := env.transform(className, s.disk[file]);
      var logged := s.messages + WeaverLogs(t.log);
      match t.outcome
      case Unchanged => Continue(State(s.disk, logged))
      case Enhanced(b) =>
        if file in env.resolvable then Continue(State(s.disk[file := b], logged + [EnhancedClass(className)]))
        else Continue(State(s.disk, logged + [OutputFileNotFound(file), EnhancedClass(className)]))
      case Raised(f) =>
        if f.FatalError? then Escaped(State(s.disk, logged))
        else Continue(State(s.disk, logged + [EnhanceFailed(className, Thrown(f))]))
  }

  /** The loop of `doProcess`, as a specification: "done" after the last
      entry; nothing more once an `Error` escapes. */
  function Run(env: Env, s: State, entries: seq<Entry>): (r: State)
    ensures s.messages <= r.messages
    decreases |entries|
  {
    if entries == [] then State(s.disk, s.messages + [Done])
    else
      match Enhance(env, s, entries[0])
      case Continue(next) => Run(env, next, entries[1..])
      case Escaped(next) => next
  }

  /** A file that is not in the table is never touched. */
  lemma {:induction false} RunUntouched(env: Env, s: State, entries: seq<Entry>, f: File)
    requires NotInTable(f, entries)
    ensures SameAt(Run(env, s, entries).disk, s.disk, f)
    decreases |entries|
  {
    if entries != [] {
      match Enhance(env, s, entries[0])
      case Continue(next) =>
        assert NotInTable(f, entries[1..]) by {
          forall i | 0 <= i < |entries[1..]| ensures entries[1..][i].1 != f {
            assert entries[1..][i] == entries[i + 1];
          }
        }
        RunUntouched(env, next, entries[1..], f);
      case Escaped(next) =>
    }
  }

  /** With distinct files, the file of entry `i` is written exactly when
      the weaver returned bytes for it and the file resolves, with those
      bytes, as long as no earlier entry let an `Error` escape. */
  lemma {:induction false} RunFileContents(env: Env, s: State, entries: seq<Entry>, i: nat)
    requires i < |entries| && DistinctFiles(entries)
    requires forall j :: 0 <= j < i ==> !Fatal(env, s.disk, entries[j])
    ensures var f, r := entries[i].1, Run(env, s, entries);
            match WrittenBytes(env, s.disk, entries[i])
            case Some(b) => f in r.disk && r.disk[f] == b
            case None => SameAt(r.disk, s.disk, f)
    decreases |entries|
  {
    var rest := entries[1..];
    assert DistinctFiles(rest) by {
      forall a, b | 0 <= a < b < |rest| ensures rest[a].1 != rest[b].1 {
        assert rest[a] == entries[a + 1] && rest[b] == entries[b + 1];
      }
    }
    if i == 0 {
      match Enhance(env, s, entries[0])
      case Continue(next) =>
        assert NotInTable(entries[0].1, rest) by {
          forall j | 0 <= j < |rest| ensures rest[j].1 != entries[0].1 {
            assert rest[j] == entries[j + 1];
          }
        }
        RunUntouched(env, next, rest, entries[0].1);
      case Escaped(next) =>
    }
    else {
      assert !Fatal(env, s.disk, entries[0]);
      var next := Enhance(env, s, entries[0]).state;
      assert entries[0].1 != entries[i].1;
      assert rest[i - 1] == entries[i];
      assert SameAt(next.disk, s.disk, entries[i].1);
      assert WrittenBytes(env, next.disk, rest[i - 1]) == WrittenBytes(env, s.disk, entries[i]);
      forall j | 0 <= j < i - 1 ensures !Fatal(env, next.disk, rest[j]) {
        assert rest[j] == entries[j + 1];
        assert entries[0].1 != entries[j + 1].1;
        assert SameAt(next.disk, s.disk, rest[j].1);
      }
      RunFileContents(env, next, rest, i - 1);
    }
  }

  /** With distinct files, as long as no earlier entry let an `Error`
      escape, the run reports what happened to entry `i`: an unreadable
      file, an enhanced class, or an `Exception`, so one failing class is
      reported and the loop goes on to the next. */
  lemma {:induction false} RunReports(env: Env, s: State, entries: seq<Entry>, i: nat)
    requires i < |entries| && DistinctFiles(entries)
    requires forall j :: 0 <= j < i ==> !Fatal(env, s.disk, entries[j])
    ensures var ms, e := Run(env, s, entries).messages, entries[i];
            && (e.1 !in s.disk ==> EnhanceFailed(e.0, Unreadable) in ms)
            && (e.1 in s.disk && Answer(env, s.disk, e).outcome.Enhanced? ==> EnhancedClass(e.0) in ms)
            && (Contained(env, s.disk, e) ==> EnhanceFailed(e.0, Thrown(Answer(env, s.disk, e).outcome.fault)) in ms)
    decreases |entries|
  {
    var rest := entries[1..];
    var next := Enhance(env, s, entries[0]).state;
    var e := entries[i];
    if i == 0 {
      if !Fatal(env, s.disk, e) {
        assert Run(env, s, entries) == Run(env, next, rest);
        var ms := Run(env, next, rest).messages;
        if e.1 !in s.disk {
          EndsInKept(next.messages, ms, EnhanceFailed(e.0, Unreadable));
        } else if Answer(env, s.disk, e).outcome.Enhanced? {
          EndsInKept(next.messages, ms, EnhancedClass(e.0));
        } else if Contained(env, s.disk, e) {
          EndsInKept(next.messages, ms, EnhanceFailed(e.0, Thrown(Answer(env, s.disk, e).outcome.fault)));
        }
      }
    } else {
      DistinctRest(entries);
      assert !Fatal(env, s.disk, entries[0]);
      assert Run(env, s, entries) == Run(env, next, rest);
      assert entries[0].1 != e.1;
      assert rest[i - 1] == e;
      assert SameAt(next.disk, s.disk, e.1);
      forall j | 0 <= j < i - 1 ensures !Fatal(env, next.disk, rest[j]) {
        assert rest[j] == entries[j + 1];
        assert entries[0].1 != entries[j + 1].1;
        assert SameAt(next.disk, s.disk, rest[j].1);
      }
      RunReports(env, next, rest, i - 1);
    }
  }

  /** With distinct files, "done" is reported exactly when no entry let an
      `Error` escape; an `Exception` never stops the loop. */
  lemma {:induction false} RunEnds(env: Env, s: State, entries: seq<Entry>)
    requires DistinctFiles(entries)
    ensures (Done in Run(env, s, entries).messages[|s.messages|..]) <==> forall i :: 0 <= i < |entries| ==> !Fatal(env, s.disk, entries[i])
    decreases |entries|
  {
    var r := Run(env, s, entries);
    if entries == [] {
      assert r.messages[|s.messages|..] == [Done];
    } else if Fatal(env, s.disk, entries[0]) {
      NoDoneFromEnhance(env, s, entries[0]);
    } else {
      var next := Enhance(env, s, entries[0]).state;
      DistinctRest(entries);
      RunEnds(env, next, entries[1..]);
      DoneAfterFirst(env, s, entries);
      FatalShifts(env, s, entries, next);
    }
  }

  /** After a first entry that lets no `Error` escape, "done" is reported
      exactly when the rest of the run reports it. */
  lemma DoneAfterFirst(env: Env, s: State, entries: seq<Entry>)
    requires entries != [] && !Fatal(env, s.disk, entries[0])
    ensures var next := Enhance(env, s, entries[0]).state;
            (Done in Run(env, s, entries).messages[|s.messages|..]) <==> (Done in Run(env, next, entries[1..]).messages[|next.messages|..])
  {
    var next := Enhance(env, s, entries[0]).state;
    var r := Run(env, next, entries[1..]);
    assert Run(env, s, entries) == r;
    NoDoneFromEnhance(env, s, entries[0]);
    GainSplit(s.messages, next.messages, r.messages);
  }

  /** After a first entry that lets no `Error` escape, the later entries
      see the disk as it was, so whether the weaver throws an `Error` for
      them is unchanged. */
  lemma FatalShifts(env: Env, s: State, entries: seq<Entry>, next: State)
    requires entries != [] && DistinctFiles(entries) && !Fatal(env, s.disk, entries[0])
    requires next.disk == Enhance(env, s, entries[0]).state.disk
    ensures (forall i :: 0 <= i < |entries| ==> !Fatal(env, s.disk, entries[i]))
            <==> (forall j :: 0 <= j < |entries| - 1 ==> !Fatal(env, next.disk, entries[1..][j]))
  {
    var rest := entries[1..];
    forall j | 0 <= j < |rest| ensures Fatal(env, next.disk, rest[j]) == Fatal(env, s.disk, entries[j + 1]) {
      assert rest[j] == entries[j + 1];
      assert entries[0].1 != entries[j + 1].1;
      assert SameAt(next.disk, s.disk, rest[j].1);
    }
    if forall j :: 0 <= j < |rest| ==> !Fatal(env, next.disk, rest[j]) {
      forall i | 0 <= i < |entries| ensures !Fatal(env, s.disk, entries[i]) {
        if i > 0 { assert rest[i - 1] == entries[i]; }
      }
    }
  }

  /** One class adds no "done" message. */
  lemma NoDoneFromEnhance(env: Env, s: State, e: Entry)
    ensures Done !in Enhance(env, s, e).state.messages[|s.messages|..]
  {
    var r := Enhance(env, s, e).state.messages[|s.messages|..];
    if e.1 in s.disk {
      var t := Answer(env, s.disk, e);
      assert forall m <- WeaverLogs(t.log) :: m.WeaverLog?;
    }
  }

  /** `buildClassLoader`'s URL set: the URL of every main and test output
      directory that exists, duplicates collapsed. */
  function OutputUrls(modules: seq<(Option<string>, Option<string>)>): set<string> {
    if modules == [] then {}
    else
      var (main, test) := modules[|modules| - 1];
      OutputUrls(modules[..|modules| - 1])
      + (if main.Some? then {main.value} else {})
      + (if test.Some? then {test.value} else {})
  }

  /** A URL is in the set exactly when it is some module's main or test
      output URL. */
  lemma {:induction false} OutputUrlsMembers(modules: seq<(Option<string>, Option<string>)>, url: string)
    ensures url in OutputUrls(modules) <==>
              exists i :: 0 <= i < |modules| && (modules[i].0 == Some(url) || modules[i].1 == Some(url))
  {
    if modules != [] {
      var init := modules[..|modules| - 1];
      OutputUrlsMembers(init, url);
      if url in OutputUrls(modules) && url !in OutputUrls(init) {
        assert modules[|modules| - 1].0 == Some(url) || modules[|modules| - 1].1 == Some(url);
      }
      if exists i :: 0 <= i < |modules| && (modules[i].0 == Some(url) || modules[i].1 == Some(url)) {
        var i :| 0 <= i < |modules| && (modules[i].0 == Some(url) || modules[i].1 == Some(url));
        if i < |init| {
          assert init[i] == modules[i];
        }
      }
    }
  }

  /** The task: the compiled table with its iteration order, the weaver and
      the resolvable files, the debug level, and the state it changes. */
  class Task {
    const compiledClasses: map<string, File>
    const order: seq<string>
    const transform: (string, Bytes) -> Transformed
    const resolvable: set<File>
    var debugLevel: int
    var disk: map<File, Bytes>
    var messages: seq<Message>

    /** The constructor: the debug level is the "ebean_idea_debug" system
        property's integer value, or 0. */
    constructor (compiledClasses: map<string, File>, order: seq<string>, transform: (string, Bytes) -> Transformed,
                 resolvable: set<File>, property: Option<string>, disk: map<File, Bytes>, messages: seq<Message>)
      requires IsIterationOrder(compiledClasses, order)
      ensures this.compiledClasses == compiledClasses && this.order == order
      ensures this.transform == transform && this.resolvable == resolvable
      ensures debugLevel == DebugLevelOf(property)
      ensures this.disk == disk && this.messages == messages
    {
      this.compiledClasses := compiledClasses;
      this.order := order;
      this.transform := transform;
      this.resolvable := resolvable;
      this.disk := disk;
      this.messages := messages;
      debugLevel := 0;
      if property.Some? {
        var parsed := ParseInt(property.value);
        if parsed.Some? {
          debugLevel := parsed.value;
        } else {
          debugLevel := 0;
        }
      }
    }

    /** `doProcess`: the start message, then every entry in iteration
        order until an `Error` escapes. */
    method DoProcess()
      requires IsIterationOrder(compiledClasses, order)
      modifies this`disk, this`messages
      ensures State(disk, messages)
              == Run(Env(transform, resolvable), State(old(disk), old(messages) + [Started(debugLevel)]), EntriesOf(compiledClasses, order))
    {
      var env := Env(transform, resolvable);
      var entries := EntriesOf(compiledClasses, order);
      messages := messages + [Started(debugLevel)];
      ghost var start := State(disk, messages);
      var i := 0;
      while i < |entries|
        invariant 0 <= i <= |entries|
        invariant Run(env, State(disk, messages), entries[i..]) == Run(env, start, entries)
      {
        assert entries[i..][0] == entries[i] && entries[i..][1..] == entries[i + 1..];
        var escaped := ProcessEnhancement(env, entries[i].0, entries[i].1);
        if escaped {
          return;
        }
        i := i + 1;
      }
      messages := messages + [Done];
    }

    /** `processEnhancement`: one class; true when an `Error` escaped. */
    method ProcessEnhancement(env: Env, className: string, file: File) returns (escaped: bool)
      requires env.transform == transform && env.resolvable == resolvable
      modifies this`disk, this`messages
      ensures match Enhance(env, old(State(disk, messages)), (className, file))
              case Continue(s) => !escaped && State(disk, messages) == s
              case Escaped(s) => escaped && State(disk, messages) == s
    {
      if file !in disk {
        messages := messages + [EnhanceFailed(className, Unreadable)];
        return false;
      }
      var t := transform(className, disk[file]);
      messages := messages + WeaverLogs(t.log);
      match t.outcome {
        case Unchanged =>
        case Enhanced(b) =>
          if file in resolvable {
            disk := disk[file := b];
          } else {
            messages := messages + [OutputFileNotFound(file)];
          }
          messages := messages + [EnhancedClass(className)];
        case Raised(f) =>
          if f.FatalError? {
            return true;
          }
          messages := messages + [EnhanceFailed(className, Thrown(f))];
      }
      return false;
    }

    /** `buildClassLoader`: the main and test output URLs of every
        affected module, gathered into a set. */
    method BuildClassPath(modules: seq<(Option<string>, Option<string>)>) returns (out: set<string>)
      ensures out == OutputUrls(modules)
    {
      out := {};
      var i := 0;
      while i < |modules|
        invariant 0 <= i <= |modules|
        invariant out == OutputUrls(modules[..i])
      {
        assert modules[..i + 1][..i] == modules[..i];
        var (main, test) := modules[i];
        if main.Some? {
          out := out + {main.value};
        }
        if test.Some? {
          out := out + {test.value};
        }
        i := i + 1;
      }
      assert modules[..|modules|] == modules;
    }
  }
}
