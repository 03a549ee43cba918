/** The class-bytes reader of the org.avaje.idea.ebean10 generation
    (src/org/avaje/idea/ebean10/plugin/IdeaClassBytesReader.java). Like the
    io.ebean generation it answers from the files compiled in this run, then
    (except for "Model") from the project index, but it always searches the
    whole project and selects the class file through the owning module's
    output directories. */
module Avaje10BytesReader {
  import opened Common
  import opened Text
  import opened ClassNames
  import opened Idea

  /** The warnings the reader adds to the compile context. */
  datatype Warning =
    | CompiledReadError(file: File)                          // a compiled file could not be read
    | NoPsiClass(className: string)                          // the index has no such class
    | NoContainingFile(className: string)                    // the class has no virtual file
    | NoClassFile(className: string)                         // no class file was selected
    | ClassFileReadError(vfile: VFile)                       // the selected file could not be read
    | IndexNotReady(className: string)                       // the index was being rebuilt
    | NoCompiledFile(moduleName: string, classNamePath: string) // neither output holds the class
    | NoMainOutput(moduleName: string)                       // the module has no main output directory
    | NoTestOutput(moduleName: string)                       // the module has no test output directory

  /** The state of the IDE the reader queries. Each map is defined exactly
      where the platform call returns non-null. */
  datatype Ide = Ide(
    findClass: map<string, PsiClass>,       // JavaPsiFacade.findClass in the project's whole scope
    indexReady: bool,                       // false: the index throws IndexNotReadyException
    moduleByFile: map<VFile, Module>,       // CompileContext.getModuleByFile
    relative: map<(VFile, string), VFile>,  // VirtualFile.findFileByRelativePath
    contents: map<VFile, Bytes>)            // VirtualFile.contentsToByteArray (absent: IOException)

  /** An answer of the reader and the warnings it added on the way. */
  datatype Lookup = Lookup(bytes: Option<Bytes>, warnings: seq<Warning>)

  /** The file at `relativePath` under a directory, null when the directory
      is null or holds no such file. */
  function FindUnder(ide: Ide, dir: Option<VFile>, relativePath: string): Option<VFile> {
    if dir.Some? && (dir.value, relativePath) in ide.relative then Some(ide.relative[(dir.value, relativePath)]) else None
  }

  /** `getClassFileFromModuleMainOutput` and `...TestOutput`: a missing
      output directory warns and answers null for that location only. */
  function FromOutput(ide: Ide, dir: Option<VFile>, relativePath: string, missing: Warning): (r: (Option<VFile>, seq<Warning>))
    ensures r.0 == FindUnder(ide, dir, relativePath)
    ensures r.1 == if dir.None? then [missing] else []
  {
    if dir.None? then (None, [missing])
    else (FindUnder(ide, dir, relativePath), [])
  }

  /** `getClassFileFromModule`: the main output is searched before the test
      output, both under `classNamePath + ".class"`. */
  function ClassFileFromModule(ide: Ide, m: Module, classNamePath: string): (r: (Option<VFile>, seq<Warning>))
    ensures var rel := classNamePath + ClassSuffix;
            && (FindUnder(ide, m.output, rel).Some? ==> r.0 == FindUnder(ide, m.output, rel))
            && (FindUnder(ide, m.output, rel).None? ==> r.0 == FindUnder(ide, m.testOutput, rel))
    ensures NoMainOutput(m.name) in r.1 <==> m.output.None?
    ensures NoTestOutput(m.name) in r.1 <==> FindUnder(ide, m.output, classNamePath + ClassSuffix).None? && m.testOutput.None?
    ensures forall w <- r.1 :: w.NoMainOutput? || w.NoTestOutput?
  {
    var rel := classNamePath + ClassSuffix;
    var (main, mainWarnings) := FromOutput(ide, m.output, rel, NoMainOutput(m.name));
    if main.Some? then (main, mainWarnings)
    else
      var (test, testWarnings) := FromOutput(ide, m.testOutput, rel, NoTestOutput(m.name));
      (test, mainWarnings + testWarnings)
  }

  /** `getClassFile`: a containing file no module owns (a library jar) is
      the class file itself; otherwise the module's outputs are searched,
      and the containing file is used, with a warning, when both miss. The
      answer is never null. */
  function ClassFile(ide: Ide, containingFile: VFile, classNamePath: string): (r: (Option<VFile>, seq<Warning>))
    ensures r.0.Some?
    ensures forall w <- r.1 :: w.NoMainOutput? || w.NoTestOutput? || w.NoCompiledFile?
    ensures containingFile !in ide.moduleByFile ==> r == (Some(containingFile), [])
    ensures containingFile in ide.moduleByFile ==>
              var m := ide.moduleByFile[containingFile];
              var fromModule := ClassFileFromModule(ide, m, classNamePath);
              && (fromModule.0.Some? ==> r == fromModule)
              && (fromModule.0.None? ==> r == (Some(containingFile), fromModule.1 + [NoCompiledFile(m.name, classNamePath)]))
  {
    if containingFile !in ide.moduleByFile then (Some(containingFile), [])
    else
      var m := ide.moduleByFile[containingFile];
      var (classFile, warnings) := ClassFileFromModule(ide, m, classNamePath);
      if classFile.None? then (Some(containingFile), warnings + [NoCompiledFile(m.name, classNamePath)])
      else (classFile, warnings)
  }

  /** The warnings that end a lookup with a null answer. */
  predicate IsFailure(w: Warning) {
    w.NoPsiClass? || w.NoContainingFile? || w.NoClassFile? || w.ClassFileReadError? || w.IndexNotReady?
  }

  /** `lookupClassBytesFallback`: find the class in the whole project's
      index, select its class file, and read it. */
  function Fallback(ide: Ide, classNamePath: string): (r: Lookup)
    ensures r.bytes.None? <==> r.warnings != [] && IsFailure(r.warnings[|r.warnings| - 1])
  {
    var className := IndexName(classNamePath);
    if !ide.indexReady then Lookup(None, [IndexNotReady(className)])
    else if className !in ide.findClass then Lookup(None, [NoPsiClass(className)])
    else
      var psiClass := ide.findClass[className];
      if psiClass.containingFile.None? then Lookup(None, [NoContainingFile(className)])
      else
        var (classFile, warnings) := ClassFile(ide, psiClass.containingFile.value, classNamePath);
        if classFile.None? then Lookup(None, warnings + [NoClassFile(className)])
        else if classFile.value !in ide.contents then Lookup(None, warnings + [ClassFileReadError(classFile.value)])
        else Lookup(Some(ide.contents[classFile.value]), warnings)
  }

  /** `getClassBytes`: the compiled table, keyed by the dotted name,
      answers first; a "Model" request it cannot answer is null without a
      warning; anything else goes to the index. */
  function ClassBytes(disk: map<File, Bytes>, ide: Ide, compiledClasses: map<string, File>, classNamePath: string): (r: Lookup)
  {
    var className := Dotted(classNamePath);
    if className in compiledClasses then
      var f := compiledClasses[className];
      if f in disk then Lookup(Some(disk[f]), []) else Lookup(None, [CompiledReadError(f)])
    else if className == "Model" then Lookup(None, [])
    else Fallback(ide, classNamePath)
  }

  /** A class compiled in this run is answered from its file alone, whatever
      the IDE state; a failed read is null with one warning. */
  lemma CompiledTierFirst(disk: map<File, Bytes>, ide1: Ide, ide2: Ide, compiledClasses: map<string, File>, classNamePath: string)
    requires Dotted(classNamePath) in compiledClasses
    ensures var f := compiledClasses[Dotted(classNamePath)];
            var r := ClassBytes(disk, ide1, compiledClasses, classNamePath);
            && r == ClassBytes(disk, ide2, compiledClasses, classNamePath)
            && (f in disk ==> r == Lookup(Some(disk[f]), []))
            && (f !in disk ==> r == Lookup(None, [CompiledReadError(f)]))
  {
  }

  /** "Model", unless compiled in this run, is null with no warning and no
      index lookup. */
  lemma ModelSentinel(disk: map<File, Bytes>, ide: Ide, compiledClasses: map<string, File>)
    requires "Model" !in compiledClasses
    ensures ClassBytes(disk, ide, compiledClasses, "Model") == Lookup(None, [])
  {
    assert Dotted("Model") == "Model";
  }

  /** Any other class not compiled in this run has bytes exactly when the
      index is ready and holds the class with a containing virtual file,
      and the selected class file can be read. */
  lemma FallbackAnswers(disk: map<File, Bytes>, ide: Ide, compiledClasses: map<string, File>, classNamePath: string)
    requires Dotted(classNamePath) !in compiledClasses && Dotted(classNamePath) != "Model"
    ensures var r := ClassBytes(disk, ide, compiledClasses, classNamePath);
            var className := IndexName(classNamePath);
            && r == Fallback(ide, classNamePath)
            && (r.bytes.Some? <==>
                  && ide.indexReady && className in ide.findClass
                  && ide.findClass[className].containingFile.Some?
                  && ClassFile(ide, ide.findClass[className].containingFile.value, classNamePath).0.value in ide.contents)
            && (r.bytes.Some? ==>
                  r.bytes.value == ide.contents[ClassFile(ide, ide.findClass[className].containingFile.value, classNamePath).0.value])
  {
  }

  /** The "Couldn't find .class file" branch is dead: the class-file
      selection never answers null. */
  lemma NoClassFileNeverReported(ide: Ide, classNamePath: string)
    ensures forall w <- Fallback(ide, classNamePath).warnings :: !w.NoClassFile?
  {
  }

  /** A module owning the containing file but with neither output directory
      holding the class hands back the containing file, which then is read
      in place of a class file. */
  lemma SourceFileFallback(ide: Ide, classNamePath: string, containingFile: VFile, m: Module)
    requires ide.indexReady && IndexName(classNamePath) in ide.findClass
    requires ide.findClass[IndexName(classNamePath)].containingFile == Some(containingFile)
    requires containingFile in ide.moduleByFile && ide.moduleByFile[containingFile] == m
    requires FindUnder(ide, m.output, classNamePath + ClassSuffix).None?
    requires FindUnder(ide, m.testOutput, classNamePath + ClassSuffix).None?
    ensures Fallback(ide, classNamePath).bytes == if containingFile in ide.contents then Some(ide.contents[containingFile]) else None
  {
  }
}
