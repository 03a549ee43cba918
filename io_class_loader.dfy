/** The class loader of the io.ebean.idea.ebean10 generation
    (src/main/java/io/ebean/idea/ebean10/plugin/IdeaClassLoader.java): it
    defines classes from the bytes the class-bytes reader finds, caching
    each defined class by name, and serves class files as resources. */
module IoClassLoader {
  import opened Common
  import opened Text
  import opened ClassNames
  import IoBytesReader

  /** The URL `IOUtils.byteArrayToURL` makes for a resource's bytes. */
  datatype Resource = Resource(bytes: Bytes)

  /** `name.replaceAll("\\.class$", "")`: one trailing ".class" is removed,
      and a name without it is kept as it is. */
  function ResourceClassPath(name: string): (r: string)
    ensures EndsWith(name, ClassSuffix) ==> r + ClassSuffix == name
    ensures !EndsWith(name, ClassSuffix) ==> r == name
  {
    if EndsWith(name, ClassSuffix) then name[..|name| - |ClassSuffix|] else name
  }

  /** The resource for a class file is looked up by the class's path, and
      only one ".class" is removed: "a/B.class" is "a/B", "a/B.class.class"
      is "a/B.class". */
  lemma ResourceClassPathOfClassFile(p: string)
    ensures ResourceClassPath(p + ClassSuffix) == p
  {
    var r := ResourceClassPath(p + ClassSuffix);
    assert (p + ClassSuffix)[|p|..] == ClassSuffix;
    assert r + ClassSuffix == p + ClassSuffix;
    assert r == (r + ClassSuffix)[..|r|] == (p + ClassSuffix)[..|p|] == p;
  }

  /** The loader: the reader it asks for bytes, and the cache of the
      classes it has defined. */
  class Loader {
    const reader: IoBytesReader.Reader
    var classCache: map<string, DefinedClass>
    /** The names defined so far, in order. */
    ghost var defined: seq<string>
    /** The slashed names `readClass` has asked the reader for, in order. */
    ghost var classReads: seq<string>

    /** Each cached class is the one defined under its key, and no name
        was defined twice. */
    ghost predicate Valid()
      reads this
    {
      && (forall n <- classCache :: classCache[n].name == n)
      && Distinct(defined)
      && (forall n :: n in classCache <==> n in defined)
    }

    constructor (reader: IoBytesReader.Reader)
      ensures Valid() && this.reader == reader
      ensures classCache == map[] && defined == [] && classReads == []
    {
      this.reader := reader;
      classCache := map[];
      defined := [];
      classReads := [];
    }

    /** `readClass`: the bytes of the slashed name, defined as a new class,
        or null when the reader has none. */
    method ReadClass(className: string) returns (r: Option<DefinedClass>)
      modifies this`classReads, reader`messages
      ensures var l := IoBytesReader.ClassBytes(reader.disk, reader.ide, reader.compiledClasses, reader.searchScope, Slashed(className));
              && reader.messages == old(reader.messages) + l.warnings
              && classReads == old(classReads) + [Slashed(className)]
              && (l.bytes.None? ==> r.None?)
              && (l.bytes.Some? ==> r.Some? && fresh(r.value) && r.value.name == className && r.value.bytes == l.bytes.value)
    {
      classReads := classReads + [Slashed(className)];
      var bytes := reader.GetClassBytes(Slashed(className));
      if bytes.None? {
        return None;
      }
      var c := new DefinedClass(className, bytes.value);
      return Some(c);
    }

    /** `findClass` through `computeIfAbsent`: a cached class is returned
        without asking the reader; otherwise the class is read, and cached
        only when it was found. None stands for `ClassNotFoundException`,
        after which a later call asks again. */
    method FindClass(name: string) returns (r: Option<DefinedClass>)
      requires Valid()
      modifies this, reader`messages
      ensures Valid()
      ensures name in old(classCache) ==>
                && r == Some(old(classCache)[name])
                && classCache == old(classCache) && defined == old(defined)
                && classReads == old(classReads) && reader.messages == old(reader.messages)
      ensures name !in old(classCache) ==>
                var l := IoBytesReader.ClassBytes(reader.disk, reader.ide, reader.compiledClasses, reader.searchScope, Slashed(name));
                && reader.messages == old(reader.messages) + l.warnings
                && classReads == old(classReads) + [Slashed(name)]
                && (l.bytes.None? ==> r.None? && classCache == old(classCache) && defined == old(defined))
                && (l.bytes.Some? ==> && r.Some? && fresh(r.value) && r.value.name == name && r.value.bytes == l.bytes.value
                                      && classCache == old(classCache)[name := r.value] && defined == old(defined) + [name])
    {
      if name in classCache {
        return Some(classCache[name]);
      }
      r := ReadClass(name);
      if r.Some? {
        classCache := classCache[name := r.value];
        defined := defined + [name];
      }
    }

    /** `findResource`: the bytes for the name without its ".class"
        suffix, as a URL, or null. */
    method FindResource(name: string) returns (r: Option<Resource>)
      modifies reader`messages
      ensures var l := IoBytesReader.ClassBytes(reader.disk, reader.ide, reader.compiledClasses, reader.searchScope, ResourceClassPath(name));
              && reader.messages == old(reader.messages) + l.warnings
              && (l.bytes.None? ==> r.None?)
              && (l.bytes.Some? ==> r == Some(Resource(l.bytes.value)))
    {
      var bytes := reader.GetClassBytes(ResourceClassPath(name));
      if bytes.Some? {
        return Some(Resource(bytes.value));
      }
      return None;
    }

    /** `findResources`: exactly one element, `findResource`'s answer,
        null included. */
    method FindResources(name: string) returns (rs: seq<Option<Resource>>)
      modifies reader`messages
      ensures var l := IoBytesReader.ClassBytes(reader.disk, reader.ide, reader.compiledClasses, reader.searchScope, ResourceClassPath(name));
              && reader.messages == old(reader.messages) + l.warnings
              && |rs| == 1
              && rs[0] == if l.bytes.Some? then Some(Resource(l.bytes.value)) else None
    {
      var r := FindResource(name);
      rs := [r];
    }
  }
}
