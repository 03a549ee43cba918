# Ebean enhancement plugin for IntelliJ IDEA, modelled in Dafny

The plugin hooks into the IDE's compiler. Each time a `.class` file is
generated, it records the file under its class name. When compilation
finishes, it hands the collected table to an enhancement task. The task runs
the Ebean weaver over every collected class and writes the rewritten bytes
back over the class file. While weaving, the weaver asks for the bytes of
other classes (supertypes, mapped superclasses). A class-bytes reader answers
those requests:

1. from the files compiled in this run;
2. except for the agent's "Model" sentinel, from the IDE's project index.

A class loader defines classes from those bytes.

The repository holds three generations of this pipeline. Each is modelled on
its own, one Dafny module per source file:

| generation | source directory | modules |
|---|---|---|
| io.ebean (Ebean 11+) | `src/main/java/io/ebean/idea/ebean10/plugin` | `IoCollector`, `IoBytesReader`, `IoClassLoader`, `IoEnhancementTask` |
| org.avaje ebean10 | `src/org/avaje/idea/ebean10/plugin` | `Avaje10BytesReader`, `Avaje10ClassLoader`, `Avaje10EnhancementTask` |
| org.avaje ebean (8.x) | `src/org/avaje/idea/ebean/plugin` | `AvajeCollector`, `AvajeEnhancementTask`, `ActionComponent` |

Shared modules:

- `Common`: Java's null as `Option`, `java.io.File`, the disk, sequence helpers.
- `Text`: the `java.lang.String` operations the code uses.
- `ClassNames`: the dotted and slashed forms of a class name.
- `Idea`: virtual files, modules, PSI classes.
- `Weaving`:
  - the weaver's answer and the exceptions it throws;
  - a hash map's entries in its iteration order.

How the model is built:

- **IDE state.** The IDE's index and virtual file system are values
  (`IoBytesReader.Ide`, `Avaje10BytesReader.Ide`). Each platform call is a
  map that is defined exactly where the call returns non-null.
- **Weaver.** The weaver is a function parameter. It returns new bytes, null
  or an exception, together with the lines it wrote to its log sink.
- **Compile context.** Messages added to the compile context form a sequence
  of typed messages.
- **Stateful objects.** Collectors, readers, loaders, tasks and the project
  component are classes, because the source updates them in place. Each such
  method is proved against a specification function. The properties are
  proved about that function:
  - `Run` for the per-class loop;
  - `ExpandAll` for companion expansion;
  - `ModuleScopeOf` for `findModule`;
  - `ClassBytes` for `getClassBytes`.

The three generations differ in how far a failure spreads:

- **io.ebean.** An `Exception` for one class is reported, and the loop goes
  on. An `Error` ends the loop with one "Exception trying to enhance" report.
- **ebean10.** An `Exception` is reported, and the loop goes on. An `Error`
  escapes the task, and "done" is never reported.
- **ebean 8.x.** Only an `IOException` is contained for one class:
  - any other `Exception` ends the loop, and `process` reports it once;
  - an `Error` escapes without a report.

Three consequences of the code shape the model:

- The two loaders the tasks build differ in order. The 8.x loader defines a
  compiled class from its file before it asks its parent; the ebean10 loader
  asks its parent first (`AvajeEnhancementTask.LoadOrders`).
- In 8.x, an exception other than an `IOException` stops the loop. The
  stopping behaviour of each generation is stated by the `RunStops*`,
  `RunAbortsAt` and `RunEnds` lemmas.
- The packages the manifest lists are only handed to the weaver. No task
  filters its working set by package, so the model has no filtering step.

## Model

| member | source | states |
|---|---|---|
| ClassNames.ResolveClassName | src/main/java/io/ebean/idea/ebean10/plugin/CompiledFileCollector.java:73-76 | The class name taken from a path that holds a '.' contains no '/' and is shorter than the path. |
| ClassNames.ClassNameOfClassFile | src/main/java/io/ebean/idea/ebean10/plugin/CompiledFileCollector.java:73-76 | The class name of `p + ".class"` is exactly `p` with every '/' turned into '.'. |
| ClassNames.ClassNameOfSuffixedPath | src/org/avaje/idea/ebean/plugin/CompiledFileCollector.java:65-68 | For any path ending in ".class", the class name is the path without that suffix, in dotted form. |
| ClassNames.ClassPathHasDot | src/main/java/io/ebean/idea/ebean10/plugin/CompiledFileCollector.java:57-66 | A path that passes the ".class" check always has the '.' that `resolveClassName` cuts at, so `substring` never gets -1. |
| ClassNames.Dotted | src/main/java/io/ebean/idea/ebean10/plugin/IdeaClassBytesReader.java:75 | Replacing '/' by '.' keeps the length and leaves no '/'. |
| ClassNames.Slashed | src/main/java/io/ebean/idea/ebean10/plugin/EbeanEnhancementTask.java:155 | Replacing '.' by '/' keeps the length and leaves no '.'. |
| ClassNames.IndexName | src/main/java/io/ebean/idea/ebean10/plugin/IdeaClassBytesReader.java:186-189 | `convertToClassName` turns every '/' and every '$' into '.', keeps every other character, and keeps the length. |
| ClassNames.NestedClassNames | src/main/java/io/ebean/idea/ebean10/plugin/IdeaClassBytesReader.java:75-99 | For a nested class, the compiled table is keyed by "a.B$C" while the index is asked for "a.B.C". |
| ClassNames.DottedOfSlashed | src/main/java/io/ebean/idea/ebean10/plugin/IdeaClassLoader.java:61 | A name converted to slashes (`readClass`) and back to dots (`getClassBytes`) looks up the same table key as the name itself. |
| ClassNames.SlashedRoundTrip | src/main/java/io/ebean/idea/ebean10/plugin/IdeaClassLoader.java:61 | A dotted name that contains no '/' is restored exactly by the slash-then-dot round trip. |
| IoCollector.Primary | src/main/java/io/ebean/idea/ebean10/plugin/CompiledFileCollector.java:122-136 | A collected class has a package split exactly when its name holds a '.'. The package directory and the short name hold no '.', and they account for the whole name. |
| IoCollector.Companion | src/main/java/io/ebean/idea/ebean10/plugin/CompiledFileCollector.java:114-120 | A companion keeps its file and name, and has neither a package split nor an output root. |
| IoCollector.SplitRejoins | src/main/java/io/ebean/idea/ebean10/plugin/CompiledFileCollector.java:127-134 | For a name without '/', the package directory turned back to dots, then ".", then the short name, rebuilds the class name. |
| IoCollector.GetFile | src/main/java/io/ebean/idea/ebean10/plugin/CompiledFileCollector.java:158-165 | A companion exists exactly when its file, under the same output root, is present. Its name is the path without ".class", in dotted form, and it has no split. |
| IoCollector.ToQueryBean | src/main/java/io/ebean/idea/ebean10/plugin/CompiledFileCollector.java:141-146 | The query bean exists exactly when the class has a package split and "pkgDir/query/Q<short>.class" is present. It is named after that path. |
| IoCollector.ToQueryAssocBean | src/main/java/io/ebean/idea/ebean10/plugin/CompiledFileCollector.java:151-156 | The association bean exists exactly when the class has a package split and "pkgDir/query/assoc/QAssoc<short>.class" is present. It is named after that path. |
| IoCollector.QueryBeanName | src/main/java/io/ebean/idea/ebean10/plugin/CompiledFileCollector.java:127-146 | The query bean of "com.x.Foo" is named "com.x.query.QFoo". |
| IoCollector.QueryAssocBeanName | src/main/java/io/ebean/idea/ebean10/plugin/CompiledFileCollector.java:127-156 | The association bean of "com.x.Foo" is named "com.x.query.assoc.QAssocFoo". |
| IoCollector.CompanionsAreLeaves | src/main/java/io/ebean/idea/ebean10/plugin/CompiledFileCollector.java:114-120 | A companion has no companions of its own, so expansion is one level deep. |
| IoCollector.CreateCompiledFile | src/main/java/io/ebean/idea/ebean10/plugin/CompiledFileCollector.java:55-68 | A notification is kept exactly when both arguments are non-null, the path ends in ".class" and the file exists. The kept record has the file, the output root, and the path without ".class" in dotted form. |
| IoCollector.Put | src/main/java/io/ebean/idea/ebean10/plugin/CompiledFileCollector.java:101-103 | `LinkedHashMap.put` adds the key, in insertion order. A new key is appended at the end. With distinct keys, an existing key keeps its position and takes the new value, and every other entry stays where it was. Keys stay distinct. |
| IoCollector.PutAllKeys | src/main/java/io/ebean/idea/ebean10/plugin/CompiledFileCollector.java:85-95 | Putting a sequence of records adds exactly their class names as keys. |
| IoCollector.PutAllEntries | src/main/java/io/ebean/idea/ebean10/plugin/CompiledFileCollector.java:85-95 | Every entry after putting a sequence was there before, or is one of the records with its own file. |
| IoCollector.ExpandOneKeys | src/main/java/io/ebean/idea/ebean10/plugin/CompiledFileCollector.java:85-95 | One iteration adds exactly the class's own name and the names of its companions that exist. |
| IoCollector.ExpandOneEntries | src/main/java/io/ebean/idea/ebean10/plugin/CompiledFileCollector.java:85-95 | An entry after one iteration was there before, or is the class or one of its companions with its file. |
| IoCollector.ExpandAllKeys | src/main/java/io/ebean/idea/ebean10/plugin/CompiledFileCollector.java:82-95 | A name is in the expanded table exactly when it is a collected class or an existing companion of one. |
| IoCollector.ExpandAllDistinct | src/main/java/io/ebean/idea/ebean10/plugin/CompiledFileCollector.java:82-95 | Every name appears once in the expanded table, so a class reached twice is processed once. |
| IoCollector.ExpandAllEntries | src/main/java/io/ebean/idea/ebean10/plugin/CompiledFileCollector.java:82-95 | Every entry of the expanded table is a collected class or one of its companions, with that record's own file. |
| IoCollector.QueryBeanNamedByFile | src/main/java/io/ebean/idea/ebean10/plugin/CompiledFileCollector.java:141-146 | A query bean's name is the class name of its own file. |
| IoCollector.QueryAssocBeanNamedByFile | src/main/java/io/ebean/idea/ebean10/plugin/CompiledFileCollector.java:151-156 | An association bean's name is the class name of its own file. |
| IoCollector.ExpandAllNamedByFile | src/main/java/io/ebean/idea/ebean10/plugin/CompiledFileCollector.java:82-95 | When every collected class is named after its file, so is every entry of the expanded table. |
| IoCollector.DistinctKeysPairwise | src/main/java/io/ebean/idea/ebean10/plugin/CompiledFileCollector.java:82-95 | A table without repeated keys has different keys at any two positions. |
| IoCollector.ExpandAllDistinctFiles | src/main/java/io/ebean/idea/ebean10/plugin/CompiledFileCollector.java:82-95 | When every collected class is named after its file, no two entries of the expanded table share a file. |
| IoCollector.ValuesIn | src/main/java/io/ebean/idea/ebean10/plugin/CompiledFileCollector.java:84 | The collected values are listed in the map's iteration order, one per key. |
| IoCollector.Collector.FileGenerated | src/main/java/io/ebean/idea/ebean10/plugin/CompiledFileCollector.java:41-66 | An accepted notification replaces the entry for its class name, and anything else leaves the map as it was. Every entry stays keyed by its own class name, which is the class name of its file. |
| IoCollector.Collector.CompilationFinished | src/main/java/io/ebean/idea/ebean10/plugin/CompiledFileCollector.java:78-99 | The table handed to the task is the expansion of the collected values in the map's iteration order, each key once, and no two of its entries share a file. The collector starts over empty. |
| AvajeCollector.BigEndianRoundTrip | src/org/avaje/idea/ebean/plugin/CompiledFileCollector.java:80-81 | The byte form of the magic the check compares against is exact: decoding an encoded 32-bit item gives the item back, and encoding four decoded bytes gives the bytes back. |
| AvajeCollector.MagicCheck | src/org/avaje/idea/ebean/plugin/CompiledFileCollector.java:73-86 | The magic 0xCAFEBABE is stored as the bytes CA FE BA BE. Every file that starts with them is accepted, and a file is accepted exactly when it has two bytes matching the first half of that magic. |
| AvajeCollector.UnreadableOrShortRejected | src/org/avaje/idea/ebean/plugin/CompiledFileCollector.java:73-86 | A notification for an unreadable file is dropped without an error, as is one for a file under two bytes. |
| AvajeCollector.CreateCompiledFile | src/org/avaje/idea/ebean/plugin/CompiledFileCollector.java:47-60 | A notification is kept exactly when both arguments are non-null, the path ends in ".class", the file exists and it passes the magic check. The record carries the file and the dotted name. |
| AvajeCollector.Collector.FileGenerated | src/org/avaje/idea/ebean/plugin/CompiledFileCollector.java:38-60 | An accepted file overwrites the entry for its class name, and anything else changes nothing. Every key stays the class name of its own file. |
| AvajeCollector.Collector.CompilationFinished | src/org/avaje/idea/ebean/plugin/CompiledFileCollector.java:88-95 | The task gets the whole current table, keyed by its files' class names, and the collector continues with an empty one. |
| IoBytesReader.ClassFileRelativeContainingFile | src/main/java/io/ebean/idea/ebean10/plugin/IdeaClassBytesReader.java:131-144 | The answer is never null. Without a warning, it is the file under the class root at `classNamePath + ".class"`. Otherwise it is the containing file itself, with exactly one warning. |
| IoBytesReader.Fallback | src/main/java/io/ebean/idea/ebean10/plugin/IdeaClassBytesReader.java:94-129 | The answer is null exactly when the last warning is a failing one. The two class-root warnings never end a lookup. |
| IoBytesReader.CompiledTierFirst | src/main/java/io/ebean/idea/ebean10/plugin/IdeaClassBytesReader.java:71-85 | A class compiled in this run is answered from its file whatever the IDE state and search scope. A failed read is null with one warning naming the file. |
| IoBytesReader.CompiledTierEitherForm | src/main/java/io/ebean/idea/ebean10/plugin/IdeaClassBytesReader.java:75-76 | The slashed and the dotted form of a compiled class's name get the same answer. |
| IoBytesReader.ModelSentinel | src/main/java/io/ebean/idea/ebean10/plugin/IdeaClassBytesReader.java:86-88 | "Model", unless it was compiled in this run, is null with no warning and never reaches the index. |
| IoBytesReader.FallbackAnswers | src/main/java/io/ebean/idea/ebean10/plugin/IdeaClassBytesReader.java:90-128 | Any other class gets bytes exactly when all of these hold, and the bytes are that file's: (1) the index is ready; (2) it finds the class in the scope; (3) the class's containing file is a class file; (4) the selected class file can be read. |
| IoBytesReader.NoClassFileNeverReported | src/main/java/io/ebean/idea/ebean10/plugin/IdeaClassBytesReader.java:112-116 | The "Couldn't find .class file" warning is never issued, because the class-file selection never answers null. |
| IoBytesReader.ModuleScopeOfFirstClaim | src/main/java/io/ebean/idea/ebean10/plugin/IdeaClassBytesReader.java:172-184 | The scope found is that of the first affected module whose main output holds the file, or whose test output holds it when the main output does not. Tests are included exactly for the test output. |
| IoBytesReader.ModuleScopeOfNone | src/main/java/io/ebean/idea/ebean10/plugin/IdeaClassBytesReader.java:172-184 | No scope is found exactly when neither output directory of any module holds the file. |
| IoBytesReader.SiblingUnderOnlyAsRoot | src/main/java/io/ebean/idea/ebean10/plugin/IdeaClassBytesReader.java:157-162 | A sibling of a file that is not under an output directory can only be under it by being that directory itself. |
| IoBytesReader.SiblingFallbackOnlyAtOutputRoot | src/main/java/io/ebean/idea/ebean10/plugin/IdeaClassBytesReader.java:151-170 | The sibling lookup finds a module only when the sibling is that module's main or test output directory. |
| IoBytesReader.Reader.constructor | src/main/java/io/ebean/idea/ebean10/plugin/IdeaClassBytesReader.java:63-69 | A new reader searches the whole project and has added no messages. |
| IoBytesReader.Reader.GetClassBytes | src/main/java/io/ebean/idea/ebean10/plugin/IdeaClassBytesReader.java:71-92 | The answer is the specification `ClassBytes` in the current search scope, and its warnings are appended to the compile context. |
| IoBytesReader.Reader.FindModule | src/main/java/io/ebean/idea/ebean10/plugin/IdeaClassBytesReader.java:172-184 | The loop over the affected modules returns `ModuleScopeOf`, the first claim in module order. |
| IoBytesReader.Reader.SetSearchScopeFromFile | src/main/java/io/ebean/idea/ebean10/plugin/IdeaClassBytesReader.java:151-170 | Details below the table. |
| Avaje10BytesReader.FromOutput | src/org/avaje/idea/ebean10/plugin/IdeaClassBytesReader.java:143-163 | A missing output directory gives null and one warning for that location only. An existing one gives the file at the relative path, without a warning. |
| Avaje10BytesReader.ClassFileFromModule | src/org/avaje/idea/ebean10/plugin/IdeaClassBytesReader.java:129-141 | Details below the table. |
| Avaje10BytesReader.ClassFile | src/org/avaje/idea/ebean10/plugin/IdeaClassBytesReader.java:114-127 | The answer is never null. A containing file with no module (a library jar) is used as it is, without a warning. Otherwise the module's answer is used together with its warnings. A missing main output warns even when the test output finds the class. When both miss, the answer is the containing file, with the module's warnings followed by one "no compiled file" warning. No other warning is added. |
| Avaje10BytesReader.Fallback | src/org/avaje/idea/ebean10/plugin/IdeaClassBytesReader.java:76-112 | The answer is null exactly when the last warning is a failing one. |
| Avaje10BytesReader.CompiledTierFirst | src/org/avaje/idea/ebean10/plugin/IdeaClassBytesReader.java:54-67 | A class compiled in this run is answered from its file whatever the IDE state. A failed read is null with one warning. |
| Avaje10BytesReader.ModelSentinel | src/org/avaje/idea/ebean10/plugin/IdeaClassBytesReader.java:68-70 | "Model", unless it was compiled in this run, is null with no warning. |
| Avaje10BytesReader.FallbackAnswers | src/org/avaje/idea/ebean10/plugin/IdeaClassBytesReader.java:72-112 | Any other class gets bytes exactly when the index is ready, it holds the class with a containing file, and the selected class file can be read. The bytes are that file's. |
| Avaje10BytesReader.NoClassFileNeverReported | src/org/avaje/idea/ebean10/plugin/IdeaClassBytesReader.java:95-99 | The "Couldn't find .class file" warning is never issued. |
| Avaje10BytesReader.SourceFileFallback | src/org/avaje/idea/ebean10/plugin/IdeaClassBytesReader.java:114-127 | When the owning module's outputs both miss the class, the containing file itself is read as the class's bytes. |
| IoClassLoader.ResourceClassPath | src/main/java/io/ebean/idea/ebean10/plugin/IdeaClassLoader.java:52 | One trailing ".class" is removed, and a name without it is kept. |
| IoClassLoader.ResourceClassPathOfClassFile | src/main/java/io/ebean/idea/ebean10/plugin/IdeaClassLoader.java:52 | The resource `p + ".class"` is looked up as `p`, with exactly one suffix removed. |
| IoClassLoader.Loader.constructor | src/main/java/io/ebean/idea/ebean10/plugin/IdeaClassLoader.java:30-34 | A new loader has an empty cache. |
| IoClassLoader.Loader.ReadClass | src/main/java/io/ebean/idea/ebean10/plugin/IdeaClassLoader.java:60-67 | The reader is asked for the slashed name. A null answer is null, not an exception. Otherwise a new class is defined under the name from exactly those bytes. |
| IoClassLoader.Loader.FindClass | src/main/java/io/ebean/idea/ebean10/plugin/IdeaClassLoader.java:36-43 | Details below the table. |
| IoClassLoader.Loader.FindResource | src/main/java/io/ebean/idea/ebean10/plugin/IdeaClassLoader.java:50-58 | The reader is asked for the name without ".class". Its bytes become the resource, and a miss is null. |
| IoClassLoader.Loader.FindResources | src/main/java/io/ebean/idea/ebean10/plugin/IdeaClassLoader.java:45-48 | Exactly one element, which is `findResource`'s answer even when that is null. |
| Avaje10ClassLoader.Loader.constructor | src/org/avaje/idea/ebean10/plugin/IdeaClassLoader.java:29-33 | A new loader has an empty cache. |
| Avaje10ClassLoader.Loader.FindClass | src/org/avaje/idea/ebean10/plugin/IdeaClassLoader.java:35-63 | Details below the table. |
| Weaving.EntriesOf | src/org/avaje/idea/ebean10/plugin/EbeanEnhancementTask.java:139-145 | The loop sees one entry per key of the iteration order: the key with its file, in that order. |
| Weaving.EntriesOfListed | src/org/avaje/idea/ebean10/plugin/EbeanEnhancementTask.java:139-145 | With an iteration order, every entry the loop sees is an entry of the map. |
| Weaving.EntriesOfCovers | src/org/avaje/idea/ebean10/plugin/EbeanEnhancementTask.java:139-145 | With an iteration order, the loop sees every entry of the map. |
| Weaving.EntriesOfOnce | src/org/avaje/idea/ebean10/plugin/EbeanEnhancementTask.java:139-145 | With an iteration order, the loop sees no key twice. |
| Weaving.IterationOrderDistinctFiles | src/org/avaje/idea/ebean/plugin/EbeanEnhancementTask.java:134-136 | A table whose keys are the class names of their files lists distinct files in any iteration order. |
| IoEnhancementTask.DebugLevel | src/main/java/io/ebean/idea/ebean10/plugin/EbeanEnhancementTask.java:142-150 | The level is 3 exactly when the log traces, 1 exactly when it debugs without tracing, and 0 exactly when it does neither. |
| IoEnhancementTask.WeaverLogs | src/main/java/io/ebean/idea/ebean10/plugin/EbeanEnhancementTask.java:119-121 | Each line the weaver logs becomes one message, in order. |
| IoEnhancementTask.Enhance | src/main/java/io/ebean/idea/ebean10/plugin/EbeanEnhancementTask.java:152-167 | Details below the table. |
| IoEnhancementTask.Run | src/main/java/io/ebean/idea/ebean10/plugin/EbeanEnhancementTask.java:127-139 | Every run ends with at least one message added: "done" or the abort report. |
| IoEnhancementTask.RunUntouched | src/main/java/io/ebean/idea/ebean10/plugin/EbeanEnhancementTask.java:127-139 | A file that is not in the table is never written. |
| IoEnhancementTask.RunFileContents | src/main/java/io/ebean/idea/ebean10/plugin/EbeanEnhancementTask.java:152-167 | Details below the table. |
| IoEnhancementTask.RunReports | src/main/java/io/ebean/idea/ebean10/plugin/EbeanEnhancementTask.java:127-167 | With distinct files and no earlier `Error`, the run reports entry i's outcome: an unreadable file under the dotted name, an enhanced class or a contained `Exception` under the slashed name. |
| IoEnhancementTask.RunCompletes | src/main/java/io/ebean/idea/ebean10/plugin/EbeanEnhancementTask.java:127-135 | With distinct files and no `Error`, the last message is "done". |
| IoEnhancementTask.RunAbortsAt | src/main/java/io/ebean/idea/ebean10/plugin/EbeanEnhancementTask.java:127-139 | When entry k is the first whose weaving throws an `Error`, the last message is the abort report with that error's message, not "done". |
| IoEnhancementTask.QuietWeaver | src/main/java/io/ebean/idea/ebean10/plugin/EbeanEnhancementTask.java:119-121 | At debug level 0 or below, none of the weaver's log lines reach the compile context. |
| IoEnhancementTask.DirectoryUrl | src/main/java/io/ebean/idea/ebean10/plugin/EbeanEnhancementTask.java:211-222 | Details below the table. |
| IoEnhancementTask.WindowsUrlKeepsSlash | src/main/java/io/ebean/idea/ebean10/plugin/EbeanEnhancementTask.java:217-220 | Replacing "file://" by "file:/" keeps a trailing '/'. |
| IoEnhancementTask.WindowsUrl | src/main/java/io/ebean/idea/ebean10/plugin/EbeanEnhancementTask.java:217-220 | On Windows, "file://" + p becomes "file:/" + p when p holds no further "file://". |
| IoEnhancementTask.WindowsDirectoryUrl | src/main/java/io/ebean/idea/ebean10/plugin/EbeanEnhancementTask.java:211-222 | On Windows, the directory "file://" + p without a trailing '/' is added as "file:/" + p + "/", for example "file:/C:/out/" for "file://C:/out". |
| IoEnhancementTask.DirectoryUrlIdempotent | src/main/java/io/ebean/idea/ebean10/plugin/EbeanEnhancementTask.java:211-216 | Off Windows, a URL the rule already produced is kept as it is. |
| IoEnhancementTask.ClassPathAppend | src/main/java/io/ebean/idea/ebean10/plugin/EbeanEnhancementTask.java:178-182 | The class path of two module lists is the concatenation of their class paths. |
| IoEnhancementTask.ClassPathOne | src/main/java/io/ebean/idea/ebean10/plugin/EbeanEnhancementTask.java:178-182 | One module contributes its main output, test output and dependency paths, in that order. |
| IoEnhancementTask.ClassPathOrder | src/main/java/io/ebean/idea/ebean10/plugin/EbeanEnhancementTask.java:175-182 | Each module's URLs form one contiguous block, in module order. |
| IoEnhancementTask.AddFileSystemUrl | src/main/java/io/ebean/idea/ebean10/plugin/EbeanEnhancementTask.java:211-223 | A null directory adds nothing, and otherwise exactly its URL is appended. |
| IoEnhancementTask.AddModulePaths | src/main/java/io/ebean/idea/ebean10/plugin/EbeanEnhancementTask.java:192-201 | The URL of every dependency path is appended, in order. |
| IoEnhancementTask.AddModuleUrls | src/main/java/io/ebean/idea/ebean10/plugin/EbeanEnhancementTask.java:178-182 | One module's URLs are appended. |
| IoEnhancementTask.BuildClassPath | src/main/java/io/ebean/idea/ebean10/plugin/EbeanEnhancementTask.java:173-190 | The loop builds exactly `ClassPath(modules)`. |
| IoEnhancementTask.Task.constructor | src/main/java/io/ebean/idea/ebean10/plugin/EbeanEnhancementTask.java:68-72 | Keeps the table it is handed. |
| IoEnhancementTask.Task.Process | src/main/java/io/ebean/idea/ebean10/plugin/EbeanEnhancementTask.java:74-84 | An empty table does nothing. Otherwise the state is that of `doProcess` at the current debug level. |
| IoEnhancementTask.Task.DoProcess | src/main/java/io/ebean/idea/ebean10/plugin/EbeanEnhancementTask.java:101-140 | The start message, then the loop over the table. The final disk and messages are exactly those of `Run`. |
| IoEnhancementTask.Task.ProcessEnhancement | src/main/java/io/ebean/idea/ebean10/plugin/EbeanEnhancementTask.java:152-167 | One class changes the state as `Enhance` says, with an escaping `Error` handed back with its message. |
| IoEnhancementTask.Task.WriteTransformed | src/main/java/io/ebean/idea/ebean10/plugin/EbeanEnhancementTask.java:228-235 | A file that resolves receives the bytes. One that does not is left alone, and "OutputFile not found" is reported. |
| Avaje10EnhancementTask.ParseInt | src/org/avaje/idea/ebean10/plugin/EbeanEnhancementTask.java:66 | A parsed value lies in the 32-bit range, and the text starts with a sign or a digit. |
| Avaje10EnhancementTask.ShowNat | src/org/avaje/idea/ebean10/plugin/EbeanEnhancementTask.java:66 | The decimal form of a natural number is a non-empty string of digits. |
| Avaje10EnhancementTask.ShowNatValue | src/org/avaje/idea/ebean10/plugin/EbeanEnhancementTask.java:66 | The digits of n have the value n. |
| Avaje10EnhancementTask.ParseShow | src/org/avaje/idea/ebean10/plugin/EbeanEnhancementTask.java:63-70 | Every 32-bit integer written in decimal is read back as itself. |
| Avaje10EnhancementTask.ParseRejects | src/org/avaje/idea/ebean10/plugin/EbeanEnhancementTask.java:65-69 | "", "-" and "x1" do not parse, while "+7" gives 7 and "-0" gives 0. |
| Avaje10EnhancementTask.ParseOverflows | src/org/avaje/idea/ebean10/plugin/EbeanEnhancementTask.java:65-69 | Details below the table. |
| Avaje10EnhancementTask.DebugLevelOf | src/org/avaje/idea/ebean10/plugin/EbeanEnhancementTask.java:63-70 | An absent property gives 0. A property that parses gives its value, and one that does not parse gives 0. |
| Avaje10EnhancementTask.LoadClass | src/org/avaje/idea/ebean10/plugin/EbeanEnhancementTask.java:90-109 | Details below the table. |
| Avaje10EnhancementTask.WeaverLogs | src/org/avaje/idea/ebean10/plugin/EbeanEnhancementTask.java:133 | Each line the weaver logs becomes one message, in order. |
| Avaje10EnhancementTask.Enhance | src/org/avaje/idea/ebean10/plugin/EbeanEnhancementTask.java:150-163 | Details below the table. |
| Avaje10EnhancementTask.Run | src/org/avaje/idea/ebean10/plugin/EbeanEnhancementTask.java:139-147 | Messages are only ever appended. |
| Avaje10EnhancementTask.RunUntouched | src/org/avaje/idea/ebean10/plugin/EbeanEnhancementTask.java:139-145 | A file that is not in the table is never written. |
| Avaje10EnhancementTask.RunFileContents | src/org/avaje/idea/ebean10/plugin/EbeanEnhancementTask.java:150-163 | Details below the table. |
| Avaje10EnhancementTask.RunReports | src/org/avaje/idea/ebean10/plugin/EbeanEnhancementTask.java:139-163 | With distinct files and no earlier `Error`, the run reports entry i's outcome: an unreadable file, an enhanced class or an `Exception`. |
| Avaje10EnhancementTask.RunEnds | src/org/avaje/idea/ebean10/plugin/EbeanEnhancementTask.java:139-147 | With distinct files, "done" is reported exactly when no entry's weaving throws an `Error`. |
| Avaje10EnhancementTask.OutputUrlsMembers | src/org/avaje/idea/ebean10/plugin/EbeanEnhancementTask.java:169-182 | A URL is in the class-path set exactly when it is some module's main or test output URL. |
| Avaje10EnhancementTask.Task.constructor | src/org/avaje/idea/ebean10/plugin/EbeanEnhancementTask.java:60-71 | Given the table with an order that lists each key once, the debug level is `DebugLevelOf` the "ebean_idea_debug" property, and the table is kept. |
| Avaje10EnhancementTask.Task.DoProcess | src/org/avaje/idea/ebean10/plugin/EbeanEnhancementTask.java:120-148 | The start message with the debug level, then the loop over every entry once, in iteration order. The final disk and messages are exactly those of `Run`. |
| Avaje10EnhancementTask.Task.ProcessEnhancement | src/org/avaje/idea/ebean10/plugin/EbeanEnhancementTask.java:150-163 | One class changes the state as `Enhance` says, and the result is true exactly when an `Error` escaped. |
| Avaje10EnhancementTask.Task.BuildClassPath | src/org/avaje/idea/ebean10/plugin/EbeanEnhancementTask.java:169-182 | The loop builds exactly the set of main and test output URLs. |
| AvajeEnhancementTask.LoadClass | src/org/avaje/idea/ebean/plugin/EbeanEnhancementTask.java:89-106 | Details below the table. |
| AvajeEnhancementTask.LoadOrders | src/org/avaje/idea/ebean/plugin/EbeanEnhancementTask.java:89-106 | A class both compiled and known to the parent is defined from the compiled file by this loader, while the ebean10 loader takes the parent's. |
| AvajeEnhancementTask.EnhancedText | src/org/avaje/idea/ebean/plugin/EbeanEnhancementTask.java:147 | The message begins "enhanced: <class> type:". It then holds " e" when the entity pass changed the class, and ends in " q" when the query-bean pass did, two characters for each. |
| AvajeEnhancementTask.EnhancedTextFlags | src/org/avaje/idea/ebean/plugin/EbeanEnhancementTask.java:147 | Two messages for the same class are equal exactly when they report the same passes. |
| AvajeEnhancementTask.WeaverLogs | src/org/avaje/idea/ebean/plugin/EbeanEnhancementTask.java:124-129 | Each line the entity weaver logs becomes one message, in order. |
| AvajeEnhancementTask.Enhance | src/org/avaje/idea/ebean/plugin/EbeanEnhancementTask.java:141-153 | Details below the table. |
| AvajeEnhancementTask.Run | src/org/avaje/idea/ebean/plugin/EbeanEnhancementTask.java:135-156 | Messages are only ever appended. |
| AvajeEnhancementTask.RunUntouched | src/org/avaje/idea/ebean/plugin/EbeanEnhancementTask.java:135-156 | A file that is not in the table is never written. |
| AvajeEnhancementTask.RunFileContents | src/org/avaje/idea/ebean/plugin/EbeanEnhancementTask.java:141-153 | Details below the table. |
| AvajeEnhancementTask.RunReports | src/org/avaje/idea/ebean/plugin/EbeanEnhancementTask.java:135-153 | With distinct files and no earlier stop, the run reports entry i's outcome: an unreadable file, an enhanced class with its passes, or an `IOException`. |
| AvajeEnhancementTask.RunCompletes | src/org/avaje/idea/ebean/plugin/EbeanEnhancementTask.java:135-156 | With distinct files and nothing that stops the loop, the last message is "done", and no other message is a report. |
| AvajeEnhancementTask.RunStopsReport | src/org/avaje/idea/ebean/plugin/EbeanEnhancementTask.java:65-78 | Details below the table. |
| AvajeEnhancementTask.RunStopsSkipsRest | src/org/avaje/idea/ebean/plugin/EbeanEnhancementTask.java:135-154 | After the loop stops at entry k, the files of the later entries are untouched. |
| AvajeEnhancementTask.Task.constructor | src/org/avaje/idea/ebean/plugin/EbeanEnhancementTask.java:60-63 | Given the table with an order that lists each key once, keeps the table. |
| AvajeEnhancementTask.Task.Process | src/org/avaje/idea/ebean/plugin/EbeanEnhancementTask.java:65-78 | The start message, the loop over every entry once in iteration order, and the report that `process` adds. The final disk and messages are exactly those of `Run`. |
| AvajeEnhancementTask.Task.ProcessEntry | src/org/avaje/idea/ebean/plugin/EbeanEnhancementTask.java:141-153 | One class changes the state as `Enhance` says, and hands back the exception that leaves the loop. |
| AvajeEnhancementTask.Task.WriteTransformed | src/org/avaje/idea/ebean/plugin/EbeanEnhancementTask.java:162-169 | A file that resolves receives the bytes. One that does not is left alone, and "OutputFile not found" is reported. |
| ActionComponent.CompilerManager.AddCompilationStatusListener | src/org/avaje/idea/ebean/plugin/EbeanActionComponent.java:79 | The listener is registered once more. |
| ActionComponent.CompilerManager.RemoveCompilationStatusListener | src/org/avaje/idea/ebean/plugin/EbeanActionComponent.java:81 | One registration of the listener is removed. |
| ActionComponent.EnhancementState.constructor | src/org/avaje/idea/ebean/plugin/EbeanActionComponent.java:102-104 | A new state bean is disabled. |
| ActionComponent.ListenerChange | src/org/avaje/idea/ebean/plugin/EbeanActionComponent.java:77-84 | The registration count changes by +1 exactly on a false-to-true transition, by -1 exactly on true-to-false, and otherwise by 0. |
| ActionComponent.Component.constructor | src/org/avaje/idea/ebean/plugin/EbeanActionComponent.java:44-48 | A new component has a fresh collector and a fresh, disabled state, and the collector is not registered. |
| ActionComponent.Component.IsEnabled | src/org/avaje/idea/ebean/plugin/EbeanActionComponent.java:73-75 | Answers the state's flag. |
| ActionComponent.Component.SetEnabled | src/org/avaje/idea/ebean/plugin/EbeanActionComponent.java:77-84 | Details below the table. |
| ActionComponent.Component.ProjectClosed | src/org/avaje/idea/ebean/plugin/EbeanActionComponent.java:68-71 | Afterwards the component is disabled, its collector is no longer registered, and one registration of it is removed while every other registration stays. |
| ActionComponent.Component.GetState | src/org/avaje/idea/ebean/plugin/EbeanActionComponent.java:90-94 | Answers the component's own bean, not a copy. |
| ActionComponent.Component.LoadState | src/org/avaje/idea/ebean/plugin/EbeanActionComponent.java:96-100 | Details below the table. |

Rows whose third column reads "Details below the table" state the following:

- **IoBytesReader.Reader.SetSearchScopeFromFile.**
  - A null file keeps the whole project as the scope, with no warning.
  - Otherwise the scope is the scope of the file's module, or else that of its sibling "<name>.class", or else the whole project.
  - A warning is added exactly when no module is found.
- **Avaje10BytesReader.ClassFileFromModule.**
  - The main output is searched before the test output.
  - The "no main output" warning is given exactly when that directory is missing.
  - The "no test output" warning is given exactly when the main output misses and the test directory is missing.
  - No other warning is given.
- **IoClassLoader.Loader.FindClass** is `computeIfAbsent`.
  - A cached class is returned without asking the reader.
  - Otherwise the class is read, and it is cached only when found.
  - A miss asks again next time.
  - No name is defined twice.
- **Avaje10ClassLoader.Loader.FindClass.**
  - A cached class is returned without reading bytes.
  - Missing bytes give null and leave the cache as it was.
  - Otherwise exactly one new class is defined and cached.
  - No name is defined twice.
- **IoEnhancementTask.Enhance.**
  - Only the entry's own file changes, and only to the weaver's bytes when the file resolves.
  - Messages are only appended. An unreadable file adds exactly one report, under the dotted name.
  - Above debug level 0, the added messages start with the weaver's log.
  - An enhanced class ends them with its "enhanced" message, right after "OutputFile not found" when the file does not resolve. A contained `Exception` ends them with its report. Both use the slashed name.
  - The loop stops exactly when the weaver throws an `Error`, and the stop carries that error's message.
- **IoEnhancementTask.RunFileContents.**
  - Files are distinct, and no earlier entry throws an `Error`.
  - If the weaver returns bytes for entry i and its file resolves, the file ends with exactly those bytes.
  - Otherwise the file keeps its original content.
- **IoEnhancementTask.DirectoryUrl.**
  - A directory's URL ends in '/'.
  - Off Windows, the URL is the directory's URL with '/' appended only when a directory's URL lacks it.
  - On Windows, every "file://" in that URL is then replaced by "file:/", from left to right, as `String.replace` does.
- **Avaje10EnhancementTask.ParseOverflows.**
  - Digits whose value exceeds 2^31-1 do not parse, unsigned or with '+'.
  - With '-' they parse exactly when the value is at most 2^31.
- **Avaje10EnhancementTask.LoadClass** is parent-first.
  - A class the parent finds comes from the parent.
  - Otherwise a readable compiled file defines it.
  - Otherwise the answer is `ClassNotFoundException`.
  - An error is logged exactly when the compiled file cannot be read.
- **Avaje10EnhancementTask.Enhance.**
  - Only the entry's own file changes, and only to the weaver's bytes.
  - An unreadable file adds exactly one report. Otherwise the added messages always start with the weaver's log.
  - An enhanced class ends them with its "enhanced" message, right after "OutputFile not found" when the file does not resolve. An `Exception` ends them with its report.
  - An `Error` escapes exactly when the weaver throws one.
- **Avaje10EnhancementTask.RunFileContents.** With distinct files and no earlier `Error`, entry i's file ends with the weaver's bytes when it resolves, and is otherwise untouched.
- **AvajeEnhancementTask.LoadClass** is compiled-first.
  - A readable compiled file defines the class.
  - Otherwise the parent is asked.
  - An unreadable compiled file logs exactly one "Couldn't read file" error.
- **AvajeEnhancementTask.Enhance.**
  - Only the entry's own file changes, and only to the response's bytes.
  - An unreadable file adds exactly one report. Otherwise the added messages start with the entity weaver's log.
  - A response that reports no change adds nothing else.
  - An enhanced class ends them with the "enhanced" text for its passes, right after "OutputFile not found" when the file does not resolve. An `IOException` ends them with its report, and the loop goes on.
  - The loop stops exactly when the transform throws something else, and the stop carries that exception.
- **AvajeEnhancementTask.RunFileContents.** With distinct files and no earlier stop, entry i's file ends with the response's bytes when enhanced and resolvable, and is otherwise untouched.
- **AvajeEnhancementTask.RunStopsReport.** When entry k is the first to throw something other than an `IOException`:
  - an `Exception` is reported once, as the last message, with no "done";
  - an `Error` leaves no report at all.
- **ActionComponent.Component.SetEnabled.**
  - The flag becomes `enabled`.
  - The collector is registered only on a false-to-true transition and removed only on true-to-false.
  - Setting the current value changes nothing.
  - The collector stays registered exactly once while enabled and not at all while disabled.
- **ActionComponent.Component.LoadState.**
  - The flag becomes the loaded bean's, even when the loaded bean is the component's own.
  - The collector is added only when the loaded flag turns it on, and removed only when it turns it off. Every other registration stays.
  - The registration stays in step with the flag.

## Left out

- Weaver internals are not modelled. The `Transformer`, `CombinedTransform`, `QueryBeanTransformer`, `EnhanceContext`, `AgentManifest` and `ClassMetaCache` (including `setFallback` and the fallback-hit count) are a function parameter. Whether weaving is idempotent is a property of that function, so nothing is stated about it.
- `ManifestReader` and the package list are not part of this model. The start messages carry only the debug level, or nothing in the 8.x generation.
- Setup failures before the loop are not modelled. These are a `MalformedURLException` from `new URL`, a failing manifest read, and the `catch` in `performEnhancement`/`process` around them. URL syntax is not modelled: `File.toURI().toURL()` is a parameter (`fileUrl`).
- `IoEnhancementTask.BuildClassPath` and `Avaje10EnhancementTask.Task.BuildClassPath` return the URL list and set. They do not construct the `URLClassLoader` or `CompiledFilesAwareClassLoader`.
- `IoEnhancementTask.Task.WriteTransformed` does not model an `IOException` from `setBinaryContent`, and neither the avaje counterpart nor the one inlined in `Avaje10EnhancementTask.Task.ProcessEnhancement` does. Such a failure is one the weaver could not see. A failure to close the input stream is also not modelled.
- `ClassLoader.defineClass` always succeeds in the model (`DefinedClass`). A `LinkageError` or a class-format error is not modelled.
- Concurrency is not modelled: the `ConcurrentHashMap`, `synchronized`, the write action, `TransactionGuard.submitTransactionLater` and `ActionRunner`. Every operation runs to completion on its own.
- Progress-indicator text and `PsiDocumentManager.commitAllDocuments` have no effect on the modelled state.
- `IoBytesReader.Fallback` does not model the `NullPointerException` when `getContainingFile()` is null. A PSI class without a containing file is treated like one without a virtual file.
- `Avaje10BytesReader.Fallback` does not model the `NullPointerException` when `getContainingFile()` is null either. Only `IndexNotReadyException` is caught there, so the source lets that exception out of `getClassBytes`. The model treats such a class like one without a virtual file: a null answer with the "containing file" warning.
- `Avaje10BytesReader.FallbackAnswers` inherits this: a class "with a containing file" covers a null `getContainingFile()` too, where the source throws instead of answering.
- `IoBytesReader.ScopeOfFile` takes `replaceAll("$.*", "")` as the identity. The pattern only matches at the very end of the name, and replaces the empty match there by the empty string.
- Hash-map iteration order is a parameter (`order`) of the tasks and of `IoCollector.Collector.CompilationFinished`. It is not derived from hashing.
- `Avaje10EnhancementTask.ParseInt` reads ASCII digits only. `Integer.parseInt` also accepts other Unicode decimal digits.
- The message texts are not modelled as strings: messages are typed values carrying what varies. The only exception is the 8.x "enhanced:" line, which is built character by character.
- The io.ebean task uses `BasicClassBytesReader`, not `IdeaClassBytesReader`. `IoBytesReader` and `IoClassLoader` are therefore modelled on their own and are not wired to `IoEnhancementTask`. `BasicClassBytesReader`, `IOUtils` and `ToggleEbeanAction` are not part of this model.
- The 8.x task's `IdeaClassBytesReader` and `IdeaClassLoader` belong to a generation whose files are not part of this model. There, the compiled-first loader's parent is a value (`superLoads`).
- `AvajeEnhancementTask.LoadClass` and `Avaje10EnhancementTask.LoadClass` are not wired into the tasks' `Run`. The weaver's class lookups are inside its function parameter, so the "Couldn't read file" errors these loaders add while the weaver runs never appear among `Run`'s messages.
- The `Run` lemmas take distinct files (`DistinctFiles`) as a premise. The collectors' tables meet it: `IoCollector.ExpandAllDistinctFiles` for the expanded table, and `Weaving.IterationOrderDistinctFiles` with `AvajeCollector.Collector.CompilationFinished` for the 8.x table. The ebean10 task's table comes from a collector that is not part of this model.
- `Avaje10ClassLoader.Loader.FindClass` skips the `super.findClass` call, which in `java.lang.ClassLoader` always throws `ClassNotFoundException`. `getResources` only delegates and is not modelled.
- `IoEnhancementTask.RunCompletes` and `IoEnhancementTask.RunAbortsAt` state the two directions of "the run ends with done exactly when no `Error` is thrown" as two lemmas. The first is stated for the last message, not for every message.
- `ActionComponent` does not model the component-name, init, dispose and project-opened callbacks, which do nothing. `XmlSerializerUtil.copyBean` is modelled as copying the one field.
