/** The compiled-file collector of the org.avaje.idea.ebean generation
    (src/org/avaje/idea/ebean/plugin/CompiledFileCollector.java): it keeps a
    notification only when the file exists and starts with the class-file
    magic, and hands its whole table to the enhancement task when
    compilation finishes. There is no companion expansion in this generation. */
module AvajeCollector {
  import opened Common
  import opened Text
  import opened ClassNames
  import opened Weaving

  /** The magic item that begins every class file (section 4.1 of The Java
      Virtual Machine Specification). */
  const Magic: bv32 := 0xCAFE_BABE

  /** The big-endian byte encoding of a 32-bit item, as a class file holds it. */
  function BigEndian(x: bv32): (r: Bytes)
    ensures |r| == 4
  {
    [(x >> 24) as bv8, ((x >> 16) & 0xFF) as bv8, ((x >> 8) & 0xFF) as bv8, (x & 0xFF) as bv8]
  }

  /** The 32-bit item four big-endian bytes hold. */
  function FromBigEndian(b: Bytes): bv32
    requires |b| == 4
  {
    ((b[0] as bv32) << 24) | ((b[1] as bv32) << 16) | ((b[2] as bv32) << 8) | (b[3] as bv32)
  }

  /** Encoding and decoding are inverse: an item is read back from its
      bytes, and four bytes are the encoding of the item they hold. */
  lemma BigEndianRoundTrip(x: bv32, b: Bytes)
    requires |b| == 4
    ensures FromBigEndian(BigEndian(x)) == x
    ensures BigEndian(FromBigEndian(b)) == b
  {
  }

  /** `isJavaClass`: the file can be read and its first two bytes are 0xCA
      0xFE. A short file or a failed read gives false, never an error. */
  predicate IsJavaClass(contents: Option<Bytes>) {
    match contents
    case None => false
    case Some(b) => |b| >= 2 && b[0] == 0xCA && b[1] == 0xFE
  }

  /** Only the first half of the magic item is examined: every real class
      file is accepted, and so is any readable file that begins with 0xCA
      0xFE, whatever follows. */
  lemma MagicCheck(b: Bytes)
    ensures BigEndian(Magic) == [0xCA, 0xFE, 0xBA, 0xBE]
    ensures |b| >= 4 && b[..4] == BigEndian(Magic) ==> IsJavaClass(Some(b))
    ensures IsJavaClass(Some(b)) <==> |b| >= 2 && b[..2] == BigEndian(Magic)[..2]
  {
    assert BigEndian(Magic) == [0xCA, 0xFE, 0xBA, 0xBE];
    if |b| >= 2 {
      assert b[..2] == [b[0], b[1]];
    }
    if |b| >= 4 && b[..4] == BigEndian(Magic) {
      assert b[0] == b[..4][0] && b[1] == b[..4][1];
    }
  }

  /** `CompiledFile`: a file and the class it holds. */
  datatype CompiledFile = CompiledFile(file: File, className: string)

  /** `createCompiledFile`: kept only when both arguments are non-null, the
      path names a ".class" file, the file exists, and it passes the magic
      check. */
  function CreateCompiledFile(outputRoot: Option<string>, relativePath: Option<string>, disk: Disk): (r: Option<CompiledFile>)
    ensures r.Some? <==> && outputRoot.Some? && relativePath.Some?
                         && EndsWith(relativePath.value, ClassSuffix)
                         && File(outputRoot, relativePath.value) in disk.present
                         && IsJavaClass(ReadFile(disk, File(outputRoot, relativePath.value)))
    ensures r.Some? ==> && r.value.file == File(outputRoot, relativePath.value)
                        && r.value.className == Dotted(relativePath.value[..|relativePath.value| - 6])
  {
    if outputRoot.None? || relativePath.None? || !EndsWith(relativePath.value, ClassSuffix) then None
    else
      var file := File(outputRoot, relativePath.value);
      if file !in disk.present || !IsJavaClass(ReadFile(disk, file)) then None
      else
        ClassNameOfSuffixedPath(relativePath.value);
        Some(CompiledFile(file, ResolveClassName(relativePath.value)))
  }

  /** Reading a whole file: None when the read fails. */
  function ReadFile(disk: Disk, f: File): Option<Bytes> {
    if f in disk.contents then Some(disk.contents[f]) else None
  }

  /** A notification for a file that exists but cannot be read is dropped,
      like one for a file shorter than two bytes. */
  lemma UnreadableOrShortRejected(outputRoot: string, relativePath: string, disk: Disk)
    requires var f := File(Some(outputRoot), relativePath);
             f !in disk.contents || |disk.contents[f]| < 2
    ensures CreateCompiledFile(Some(outputRoot), Some(relativePath), disk) == None
  {
  }

  /** The collector. */
  class Collector {
    var compiledClasses: map<string, File>

    /** Every entry is keyed by the class name of its own file. */
    ghost predicate Valid()
      reads this
    {
      KeyedByFile(compiledClasses)
    }

    constructor ()
      ensures Valid() && compiledClasses == map[]
    {
      compiledClasses := map[];
    }

    /** `fileGenerated`: an accepted file overwrites any entry of the same
        class name; anything else leaves the table as it was. */
    method FileGenerated(outputRoot: Option<string>, relativePath: Option<string>, disk: Disk)
      requires Valid()
      modifies this
      ensures Valid()
      ensures compiledClasses == match CreateCompiledFile(outputRoot, relativePath, disk)
                                 case Some(cf) => old(compiledClasses)[cf.className := cf.file]
                                 case None => old(compiledClasses)
    {
      var compiledFile := CreateCompiledFile(outputRoot, relativePath, disk);
      if compiledFile.Some? {
        ClassNameOfSuffixedPath(relativePath.value);
        compiledClasses := compiledClasses[compiledFile.value.className := compiledFile.value.file];
      }
    }

    /** `compilationFinished`: the current table goes to the enhancement
        task and the collector starts over with a fresh empty table. The
        table handed over is keyed by its files' class names, so in any
        iteration order it lists distinct files. */
    method CompilationFinished() returns (handed: map<string, File>)
      requires Valid()
      modifies this
      ensures handed == old(compiledClasses) && KeyedByFile(handed)
      ensures Valid() && compiledClasses == map[]
    {
      handed := compiledClasses;
      compiledClasses := map[];
    }
  }
}
