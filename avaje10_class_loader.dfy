/** The class loader of the org.avaje.idea.ebean10 generation
    (src/org/avaje/idea/ebean10/plugin/IdeaClassLoader.java). `findClass`
    first defers to `ClassLoader.findClass`, which always throws
    `ClassNotFoundException`, so every call reaches the check-then-define
    block: a cached class is returned, else the class is defined from the
    reader's bytes and cached, and a miss answers null. */
module Avaje10ClassLoader {
  import opened Common
  import opened ClassNames
  import Avaje10BytesReader

  /** The loader: the reader's inputs (final fields of the reader), the
      messages the reader has added to the compile context, and the cache
      of defined classes. */
  class Loader {
    const disk: map<File, Bytes>
    const ide: Avaje10BytesReader.Ide
    const compiledClasses: map<string, File>
    var messages: seq<Avaje10BytesReader.Warning>
    var definedClasses: map<string, DefinedClass>
    /** The names defined so far, in order. */
    ghost var defined: seq<string>
    /** The slashed names the reader was asked for, in order. */
    ghost var classReads: seq<string>

    /** Each cached class is the one defined under its key, and no name
        was defined twice. */
    ghost predicate Valid()
      reads this
    {
      && (forall n <- definedClasses :: definedClasses[n].name == n)
      && Distinct(defined)
      && (forall n :: n in definedClasses <==> n in defined)
    }

    constructor (disk: map<File, Bytes>, ide: Avaje10BytesReader.Ide, compiledClasses: map<string, File>)
      ensures Valid() && this.disk == disk && this.ide == ide && this.compiledClasses == compiledClasses
      ensures messages == [] && definedClasses == map[] && defined == [] && classReads == []
    {
      this.disk := disk;
      this.ide := ide;
      this.compiledClasses := compiledClasses;
      messages := [];
      definedClasses := map[];
      defined := [];
      classReads := [];
    }

    /** `findClass`: a cache hit is returned without reading bytes; missing
        bytes answer null (no exception) and leave the cache unchanged;
        otherwise exactly one new mapping to a newly defined class is
        added. */
    method FindClass(name: string) returns (r: Option<DefinedClass>)
      requires Valid()
      modifies this`messages, this`definedClasses, this`defined, this`classReads
      ensures Valid()
      ensures name in old(definedClasses) ==>
                && r == Some(old(definedClasses)[name])
                && definedClasses == old(definedClasses) && defined == old(defined)
                && classReads == old(classReads) && messages == old(messages)
      ensures name !in old(definedClasses) ==>
                var l := Avaje10BytesReader.ClassBytes(disk, ide, compiledClasses, Slashed(name));
                && messages == old(messages) + l.warnings
                && classReads == old(classReads) + [Slashed(name)]
                && (l.bytes.None? ==> r.None? && definedClasses == old(definedClasses) && defined == old(defined))
                && (l.bytes.Some? ==> && r.Some? && fresh(r.value) && r.value.name == name && r.value.bytes == l.bytes.value
                                      && definedClasses == old(definedClasses)[name := r.value] && defined == old(defined) + [name])
    {
      if name in definedClasses {
        return Some(definedClasses[name]);
      }
      classReads := classReads + [Slashed(name)];
      var l := Avaje10BytesReader.ClassBytes(disk, ide, compiledClasses, Slashed(name));
      messages := messages + l.warnings;
      if l.bytes.None? {
        return None;
      }
      var c := new DefinedClass(name, l.bytes.value);
      definedClasses := definedClasses[name := c];
      defined := defined + [name];
      return Some(c);
    }
  }
}
