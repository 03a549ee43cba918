/** The class-bytes reader of the io.ebean.idea.ebean10 generation
    (src/main/java/io/ebean/idea/ebean10/plugin/IdeaClassBytesReader.java).
    The enhancer asks it for the bytes of a class by its slash-separated
    name. It answers from the files compiled in this run first, then, except
    for the agent's "Model" sentinel, from the project index within the
    current search scope. Every failure is a warning on the compile context
    and a null answer. */
module IoBytesReader {
  import opened Common
  import opened Text
  import opened ClassNames
  import opened Idea

  /** A search scope: the whole project, or one module with its
      dependencies and libraries, with or without its test sources. */
  datatype Scope = AllScope | ModuleScope(moduleName: string, includeTests: bool)

  /** The warnings the reader adds to the compile context. */
  datatype Warning =
    | CompiledReadError(file: File)        // a compiled file could not be read
    | NoPsiClass(className: string)        // the index has no such class
    | NoContainingFile(className: string)  // no virtual file, or not a class file
    | NoClassFile(className: string)       // no class file was selected
    | ClassFileReadError(vfile: VFile)     // the selected class file could not be read
    | IndexNotReady(className: string)     // the index was being rebuilt
    | NoClassRoot(className: string)       // the containing file has no class root
    | NotInIndex(className: string)        // the class root has no such relative path
    | NoModuleForFile(file: File)          // no module owns the file

  /** The state of the IDE the reader queries. Each map is defined exactly
      where the platform call returns non-null. */
  datatype Ide = Ide(
    findClass: map<(string, Scope), PsiClass>,  // JavaPsiFacade.findClass
    indexReady: bool,                           // false: the index throws IndexNotReadyException
    classRoot: map<VFile, VFile>,               // ProjectFileIndex.getClassRootForFile
    relative: map<(VFile, string), VFile>,      // VirtualFile.findFileByRelativePath
    contents: map<VFile, Bytes>,                // VirtualFile.contentsToByteArray (absent: IOException)
    localFiles: map<File, VFile>,               // LocalFileSystem.findFileByIoFile
    children: set<VFile>,                       // files that VirtualFile.findChild finds
    modules: seq<Module>)                       // the affected modules of the compile scope, in order

  /** An answer of the reader and the warnings it added on the way. */
  datatype Lookup = Lookup(bytes: Option<Bytes>, warnings: seq<Warning>)

  /** `getClassRootForFile` then `findFileByRelativePath`: the class file
      at the same relative path under the containing file's class root,
      falling back to the containing file itself with a warning. The answer
      is never null. */
  function ClassFileRelativeContainingFile(ide: Ide, containingFile: VFile, classNamePath: string, className: string)
    : (r: (Option<VFile>, seq<Warning>))
    ensures r.0.Some?
    ensures r.1 == [] <==> && containingFile in ide.classRoot
                           && (ide.classRoot[containingFile], classNamePath + ClassSuffix) in ide.relative
    ensures r.1 == [] ==> r.0.value == ide.relative[(ide.classRoot[containingFile], classNamePath + ClassSuffix)]
    ensures r.1 != [] ==> r.0.value == containingFile && |r.1| == 1
  {
    if containingFile !in ide.classRoot then
      (Some(containingFile), [NoClassRoot(className)])
    else
      var root := ide.classRoot[containingFile];
      if (root, classNamePath + ClassSuffix) !in ide.relative then
        (Some(containingFile), [NotInIndex(className)])
      else
        (Some(ide.relative[(root, classNamePath + ClassSuffix)]), [])
  }

  /** The warnings that end a lookup with a null answer. */
  predicate IsFailure(w: Warning) {
    !w.NoClassRoot? && !w.NotInIndex?
  }

  /** `lookupClassBytesFallback`: find the class in the index within
      `scope`, select its class file, and read it. */
  function Fallback(ide: Ide, scope: Scope, classNamePath: string): (r: Lookup)
    ensures r.bytes.None? <==> r.warnings != [] && IsFailure(r.warnings[|r.warnings| - 1])
  {
    var className := IndexName(classNamePath);
    if !ide.indexReady then Lookup(None, [IndexNotReady(className)])
    else if (className, scope) !in ide.findClass then Lookup(None, [NoPsiClass(className)])
    else
      var psiClass := ide.findClass[(className, scope)];
      if psiClass.containingFile.None? || psiClass.fileExtension != "class" then
        Lookup(None, [NoContainingFile(className)])
      else
        var (classFile, warnings) := ClassFileRelativeContainingFile(ide, psiClass.containingFile.value, classNamePath, className);
        if classFile.None? then Lookup(None, warnings + [NoClassFile(className)])
        else if classFile.value !in ide.contents then Lookup(None, warnings + [ClassFileReadError(classFile.value)])
        else Lookup(Some(ide.contents[classFile.value]), warnings)
  }

  /** `getClassBytes`: the compiled table, keyed by the dotted name, answers
      first; a "Model" request it cannot answer is null without a warning;
      anything else goes to the index. */
  function ClassBytes(disk: map<File, Bytes>, ide: Ide, compiledClasses: map<string, File>, scope: Scope, classNamePath: string)
    : (r: Lookup)
  {
    var className := Dotted(classNamePath);
    if className in compiledClasses then
      var f := compiledClasses[className];
      if f in disk then Lookup(Some(disk[f]), []) else Lookup(None, [CompiledReadError(f)])
    else if className == "Model" then Lookup(None, [])
    else Fallback(ide, scope, classNamePath)
  }

  /** A class compiled in this run is answered from its file alone: the
      answer does not depend on the IDE or the search scope, and a failed
      read is null with one warning naming the file. */
  lemma CompiledTierFirst(disk: map<File, Bytes>, ide1: Ide, ide2: Ide, compiledClasses: map<string, File>,
                          scope1: Scope, scope2: Scope, classNamePath: string)
    requires Dotted(classNamePath) in compiledClasses
    ensures var f := compiledClasses[Dotted(classNamePath)];
            var r := ClassBytes(disk, ide1, compiledClasses, scope1, classNamePath);
            && r == ClassBytes(disk, ide2, compiledClasses, scope2, classNamePath)
            && (f in disk ==> r == Lookup(Some(disk[f]), []))
            && (f !in disk ==> r == Lookup(None, [CompiledReadError(f)]))
  {
  }

  /** The compiled table treats the slashed and the dotted form of a name
      alike. */
  lemma CompiledTierEitherForm(disk: map<File, Bytes>, ide: Ide, compiledClasses: map<string, File>, scope: Scope, name: string)
    requires Dotted(name) in compiledClasses
    ensures ClassBytes(disk, ide, compiledClasses, scope, Slashed(name)) == ClassBytes(disk, ide, compiledClasses, scope, name)
  {
    DottedOfSlashed(name);
  }

  /** The "Model" sentinel never reaches the index: unless compiled in this
      run, it is null with no warning, whatever the IDE state. */
  lemma ModelSentinel(disk: map<File, Bytes>, ide: Ide, compiledClasses: map<string, File>, scope: Scope)
    requires "Model" !in compiledClasses
    ensures ClassBytes(disk, ide, compiledClasses, scope, "Model") == Lookup(None, [])
  {
    assert Dotted("Model") == "Model";
  }

  /** Any other class not compiled in this run is looked up in the index,
      and the answer has bytes exactly when the index is ready, it holds the
      class in the scope, its containing file is a class file, and the
      selected class file can be read; the bytes are that file's. */
  lemma FallbackAnswers(disk: map<File, Bytes>, ide: Ide, compiledClasses: map<string, File>, scope: Scope, classNamePath: string)
    requires Dotted(classNamePath) !in compiledClasses && Dotted(classNamePath) != "Model"
    ensures var r := ClassBytes(disk, ide, compiledClasses, scope, classNamePath);
            var className := IndexName(classNamePath);
            && r == Fallback(ide, scope, classNamePath)
            && (r.bytes.Some? <==>
                  && ide.indexReady && (className, scope) in ide.findClass
                  && ide.findClass[(className, scope)].containingFile.Some?
                  && ide.findClass[(className, scope)].fileExtension == "class"
                  && ClassFileRelativeContainingFile(ide, ide.findClass[(className, scope)].containingFile.value,
                                                     classNamePath, className).0.value in ide.contents)
            && (r.bytes.Some? ==>
                  r.bytes.value == ide.contents[ClassFileRelativeContainingFile(ide, ide.findClass[(className, scope)].containingFile.value,
                                                                                 classNamePath, className).0.value])
  {
  }

  /** The "Couldn't find .class file" branch is dead: no lookup ever reports
      that warning, because the class-file selection never answers null. */
  lemma NoClassFileNeverReported(ide: Ide, scope: Scope, classNamePath: string)
    ensures forall w <- Fallback(ide, scope, classNamePath).warnings :: !w.NoClassFile?
  {
  }

  /** `findModule`, as a specification: the first affected module whose main
      output, and then test output, holds the file gives its scope, tests
      included for the test output. */
  function ModuleScopeOf(modules: seq<Module>, vf: VFile): Option<Scope> {
    if modules == [] then None
    else if IsUnder(vf, modules[0].output) then Some(ModuleScope(modules[0].name, false))
    else if IsUnder(vf, modules[0].testOutput) then Some(ModuleScope(modules[0].name, true))
    else ModuleScopeOf(modules[1..], vf)
  }

  /** Neither output directory of the module holds the file. */
  predicate Unclaimed(m: Module, vf: VFile) {
    !IsUnder(vf, m.output) && !IsUnder(vf, m.testOutput)
  }

  /** The module claims the file for its main scope, or (tests) for its test
      scope only when its main output does not hold it. */
  predicate Claims(m: Module, vf: VFile, includeTests: bool) {
    if includeTests then !IsUnder(vf, m.output) && IsUnder(vf, m.testOutput) else IsUnder(vf, m.output)
  }

  /** The scope found is exactly that of the first module claiming the
      file. */
  lemma {:induction false} ModuleScopeOfFirstClaim(modules: seq<Module>, vf: VFile, name: string, includeTests: bool)
    ensures ModuleScopeOf(modules, vf) == Some(ModuleScope(name, includeTests)) <==>
              exists i :: 0 <= i < |modules| && modules[i].name == name && Claims(modules[i], vf, includeTests)
                          && forall j :: 0 <= j < i ==> Unclaimed(modules[j], vf)
  {
    if modules != [] {
      var rest := modules[1..];
      ModuleScopeOfFirstClaim(rest, vf, name, includeTests);
      if ModuleScopeOf(modules, vf) == Some(ModuleScope(name, includeTests)) {
        if !Unclaimed(modules[0], vf) {
          assert Claims(modules[0], vf, includeTests);
        } else {
          var i :| 0 <= i < |rest| && rest[i].name == name && Claims(rest[i], vf, includeTests)
                   && forall j :: 0 <= j < i ==> Unclaimed(rest[j], vf);
          assert modules[i + 1] == rest[i];
          assert forall j :: 0 <= j < i + 1 ==> Unclaimed(modules[j], vf) by {
            forall j | 0 <= j < i + 1 ensures Unclaimed(modules[j], vf) {
              if j > 0 { assert modules[j] == rest[j - 1]; }
            }
          }
        }
      }
      if exists i :: 0 <= i < |modules| && modules[i].name == name && Claims(modules[i], vf, includeTests)
                     && forall j :: 0 <= j < i ==> Unclaimed(modules[j], vf) {
        var i :| 0 <= i < |modules| && modules[i].name == name && Claims(modules[i], vf, includeTests)
                 && forall j :: 0 <= j < i ==> Unclaimed(modules[j], vf);
        if i > 0 {
          assert Unclaimed(modules[0], vf);
          assert rest[i - 1] == modules[i];
          assert forall j :: 0 <= j < i - 1 ==> Unclaimed(rest[j], vf) by {
            forall j | 0 <= j < i - 1 ensures Unclaimed(rest[j], vf) {
              assert rest[j] == modules[j + 1];
            }
          }
        }
      }
    }
  }

  /** There is no scope exactly when no module claims the file. */
  lemma {:induction false} ModuleScopeOfNone(modules: seq<Module>, vf: VFile)
    ensures ModuleScopeOf(modules, vf) == None <==> forall i :: 0 <= i < |modules| ==> Unclaimed(modules[i], vf)
  {
    if modules != [] {
      var rest := modules[1..];
      ModuleScopeOfNone(rest, vf);
      if forall i :: 0 <= i < |modules| ==> Unclaimed(modules[i], vf) {
        assert forall i :: 0 <= i < |rest| ==> Unclaimed(rest[i], vf) by {
          forall i | 0 <= i < |rest| ensures Unclaimed(rest[i], vf) {
            assert rest[i] == modules[i + 1];
          }
        }
      }
      if forall i :: 0 <= i < |rest| ==> Unclaimed(rest[i], vf) {
        if Unclaimed(modules[0], vf) {
          forall i | 0 <= i < |modules| ensures Unclaimed(modules[i], vf) {
            if i > 0 { assert modules[i] == rest[i - 1]; }
          }
        }
      }
    }
  }

  /** `setSearchScopeFromFile`, as a specification: the module owning the
      file's virtual file, or else the module owning its sibling named
      `getName() + ".class"`. The `replaceAll("$.*", "")` in between keeps
      the name as it is: `$` is the end-of-input anchor, so the pattern
      matches only the empty text at the very end, and replacing that by
      the empty string changes nothing. */
  function ScopeOfFile(ide: Ide, file: File): Option<Scope> {
    if file !in ide.localFiles then None
    else
      var vf := ide.localFiles[file];
      match ModuleScopeOf(ide.modules, vf)
      case Some(s) => Some(s)
      case None =>
        var sibling := vf.Sibling(vf.name + ClassSuffix);
        if sibling in ide.children then ModuleScopeOf(ide.modules, sibling) else None
  }

  /** A sibling lies in the same directory, so it is under an output
      directory the file is not under only when it is that output
      directory itself. */
  lemma SiblingUnderOnlyAsRoot(vf: VFile, child: string, root: Option<VFile>)
    requires !IsUnder(vf, root) && IsUnder(vf.Sibling(child), root)
    ensures root == Some(vf.Sibling(child))
  {
    var s := vf.Sibling(child);
    var p := root.value.Path();
    assert |p| == |s.Path()|;
    assert p == s.Path();
    assert p[..|p| - 1] == root.value.dir && p[|p| - 1] == root.value.name;
  }

  /** The sibling lookup only ever finds a module when the sibling is that
      module's main or test output directory itself. */
  lemma {:induction false} SiblingFallbackOnlyAtOutputRoot(modules: seq<Module>, vf: VFile, child: string)
    requires ModuleScopeOf(modules, vf) == None && ModuleScopeOf(modules, vf.Sibling(child)).Some?
    ensures exists i :: 0 <= i < |modules| && (modules[i].output == Some(vf.Sibling(child)) || modules[i].testOutput == Some(vf.Sibling(child)))
  {
    var m := modules[0];
    if IsUnder(vf.Sibling(child), m.output) {
      SiblingUnderOnlyAsRoot(vf, child, m.output);
      assert modules[0].output == Some(vf.Sibling(child));
    } else if IsUnder(vf.Sibling(child), m.testOutput) {
      SiblingUnderOnlyAsRoot(vf, child, m.testOutput);
      assert modules[0].testOutput == Some(vf.Sibling(child));
    } else {
      SiblingFallbackOnlyAtOutputRoot(modules[1..], vf, child);
      var i :| 0 <= i < |modules[1..]| && (modules[1..][i].output == Some(vf.Sibling(child)) || modules[1..][i].testOutput == Some(vf.Sibling(child)));
      assert modules[i + 1] == modules[1..][i];
    }
  }

  /** The reader: the compiled table and the IDE it reads from, the current
      search scope, and the messages it has added to the compile context. */
  class Reader {
    const disk: map<File, Bytes>
    const ide: Ide
    const compiledClasses: map<string, File>
    var searchScope: Scope
    var messages: seq<Warning>

    /** A new reader searches the whole project. */
    constructor (disk: map<File, Bytes>, ide: Ide, compiledClasses: map<string, File>)
      ensures this.disk == disk && this.ide == ide && this.compiledClasses == compiledClasses
      ensures searchScope == AllScope && messages == []
    {
      this.disk := disk;
      this.ide := ide;
      this.compiledClasses := compiledClasses;
      searchScope := AllScope;
      messages := [];
    }

    /** `getClassBytes` within the current search scope; its warnings are
        added to the compile context. */
    method GetClassBytes(classNamePath: string) returns (bytes: Option<Bytes>)
      modifies this`messages
      ensures var r := ClassBytes(disk, ide, compiledClasses, searchScope, classNamePath);
              bytes == r.bytes && messages == old(messages) + r.warnings
    {
      var r := ClassBytes(disk, ide, compiledClasses, searchScope, classNamePath);
      bytes := r.bytes;
      messages := messages + r.warnings;
    }

    /** `findModule`: the modules are tried in order, main output before
        test output. */
    method FindModule(vf: VFile) returns (scope: Option<Scope>)
      ensures scope == ModuleScopeOf(ide.modules, vf)
    {
      var i := 0;
      while i < |ide.modules|
        invariant 0 <= i <= |ide.modules|
        invariant ModuleScopeOf(ide.modules[i..], vf) == ModuleScopeOf(ide.modules, vf)
      {
        var m := ide.modules[i];
        if IsUnder(vf, m.output) {
          return Some(ModuleScope(m.name, false));
        }
        if IsUnder(vf, m.testOutput) {
          return Some(ModuleScope(m.name, true));
        }
        assert ide.modules[i..][1..] == ide.modules[i + 1..];
        i := i + 1;
      }
      return None;
    }

    /** `setSearchScopeFromFile`: the scope of the module owning the file,
        or the whole project, with a warning when a non-null file has no
        module. */
    method SetSearchScopeFromFile(file: Option<File>)
      modifies this`searchScope, this`messages
      ensures file.None? ==> searchScope == AllScope && messages == old(messages)
      ensures file.Some? ==> && searchScope == ScopeOfFile(ide, file.value).GetOr(AllScope)
                             && messages == old(messages) + (if ScopeOfFile(ide, file.value).None? then [NoModuleForFile(file.value)] else [])
    {
      var scope: Option<Scope> := None;
      if file.Some? {
        if file.value in ide.localFiles {
          var vf := ide.localFiles[file.value];
          scope := FindModule(vf);
          if scope.None? {
            var sibling := vf.Sibling(vf.name + ClassSuffix);
            if sibling in ide.children {
              scope := FindModule(sibling);
            }
          }
        }
        if scope.None? {
          messages := messages + [NoModuleForFile(file.value)];
        }
      }
      searchScope := scope.GetOr(AllScope);
    }
  }
}
