/** The compiled-file collector of the io.ebean generation
    (src/main/java/io/ebean/idea/ebean10/plugin/CompiledFileCollector.java):
    it filters the compiler's "file generated" notifications, remembers one
    compiled file per class name, and when compilation finishes expands every
    collected class with its generated query-bean companions into an
    insertion-ordered table that the enhancement task consumes. */
module IoCollector {
  import opened Common
  import opened Text
  import opened ClassNames
  import opened Weaving

  /** The package directory ('/'-separated) and the short name of a class. */
  datatype Split = Split(pkgDir: string, shortName: string)

  /** `CompiledFile`. The package directory and short name are both set or
      both null in the source, so they are one optional `Split` here. */
  datatype CompiledFile = CompiledFile(file: File, className: string, split: Option<Split>, outputRoot: Option<string>)

  /** The three-argument constructor: a collected class, split at the last '.'. */
  function Primary(file: File, className: string, outputRoot: string): (cf: CompiledFile)
    ensures cf.file == file && cf.className == className && cf.outputRoot == Some(outputRoot)
    ensures cf.split.Some? <==> '.' in className
    ensures cf.split.Some? ==> '.' !in cf.split.value.pkgDir && '.' !in cf.split.value.shortName
    ensures cf.split.Some? ==> |cf.split.value.pkgDir| + 1 + |cf.split.value.shortName| == |className|
  {
    var pos := LastIndexOf(className, '.');
    if pos == -1 then CompiledFile(file, className, None, Some(outputRoot))
    else CompiledFile(file, className, Some(Split(Slashed(className[..pos]), className[pos + 1..])), Some(outputRoot))
  }

  /** The two-argument constructor: a companion, which has no package split
      and no output root, so it never has companions of its own. */
  function Companion(file: File, className: string): (cf: CompiledFile)
    ensures cf.split == None && cf.outputRoot == None
    ensures cf.file == file && cf.className == className
  {
    CompiledFile(file, className, None, None)
  }

  /** The path of the query bean generated for a class. */
  function QueryBeanPath(s: Split): string {
    s.pkgDir + "/query/Q" + s.shortName + ClassSuffix
  }

  /** The path of the association query bean generated for a class. */
  function QueryAssocBeanPath(s: Split): string {
    s.pkgDir + "/query/assoc/QAssoc" + s.shortName + ClassSuffix
  }

  /** `getFile`: the companion at `path` under the same output root, if that
      file exists. */
  function GetFile(cf: CompiledFile, path: string, present: set<File>): (r: Option<CompiledFile>)
    requires EndsWith(path, ClassSuffix)
    ensures r.Some? <==> File(cf.outputRoot, path) in present
    ensures r.Some? ==> r.value.file == File(cf.outputRoot, path) && r.value.split == None
    ensures r.Some? ==> r.value.className == Dotted(path[..|path| - 6])
  {
    ClassNameOfSuffixedPath(path);
    var f := File(cf.outputRoot, path);
    if f in present then Some(Companion(f, ResolveClassName(path))) else None
  }

  lemma QueryPathsAreClassFiles(s: Split)
    ensures EndsWith(QueryBeanPath(s), ClassSuffix) && EndsWith(QueryAssocBeanPath(s), ClassSuffix)
  {
    var q, a := QueryBeanPath(s), QueryAssocBeanPath(s);
    assert q[|q| - 6..] == ClassSuffix;
    assert a[|a| - 6..] == ClassSuffix;
  }

  /** `toQueryBean`. */
  function ToQueryBean(cf: CompiledFile, present: set<File>): (r: Option<CompiledFile>)
    ensures r.Some? <==> cf.split.Some? && File(cf.outputRoot, QueryBeanPath(cf.split.value)) in present
    ensures r.Some? ==> r.value.file == File(cf.outputRoot, QueryBeanPath(cf.split.value)) && r.value.split == None
    ensures r.Some? ==> r.value.className == Dotted(cf.split.value.pkgDir + "/query/Q" + cf.split.value.shortName)
  {
    match cf.split
    case None => None
    case Some(s) =>
      QueryPathsAreClassFiles(s);
      var p := QueryBeanPath(s);
      assert p[..|p| - 6] == s.pkgDir + "/query/Q" + s.shortName;
      GetFile(cf, p, present)
  }

  /** `toQueryAssocBean`. */
  function ToQueryAssocBean(cf: CompiledFile, present: set<File>): (r: Option<CompiledFile>)
    ensures r.Some? <==> cf.split.Some? && File(cf.outputRoot, QueryAssocBeanPath(cf.split.value)) in present
    ensures r.Some? ==> r.value.file == File(cf.outputRoot, QueryAssocBeanPath(cf.split.value)) && r.value.split == None
    ensures r.Some? ==> r.value.className == Dotted(cf.split.value.pkgDir + "/query/assoc/QAssoc" + cf.split.value.shortName)
  {
    match cf.split
    case None => None
    case Some(s) =>
      QueryPathsAreClassFiles(s);
      var p := QueryAssocBeanPath(s);
      assert p[..|p| - 6] == s.pkgDir + "/query/assoc/QAssoc" + s.shortName;
      GetFile(cf, p, present)
  }

  /** `createCompiledFile`: a notification is kept only when both arguments
      are non-null, the path names a ".class" file and that file exists. */
  function CreateCompiledFile(outputRoot: Option<string>, relativePath: Option<string>, present: set<File>): (r: Option<CompiledFile>)
    ensures r.Some? <==> && outputRoot.Some? && relativePath.Some?
                         && EndsWith(relativePath.value, ClassSuffix)
                         && File(outputRoot, relativePath.value) in present
    ensures r.Some? ==> && r.value.file == File(outputRoot, relativePath.value)
                        && r.value.outputRoot == outputRoot
                        && r.value.className == Dotted(relativePath.value[..|relativePath.value| - 6])
  {
    if outputRoot.None? || relativePath.None? || !EndsWith(relativePath.value, ClassSuffix) then None
    else
      var file := File(outputRoot, relativePath.value);
      if file !in present then None
      else
        ClassNameOfSuffixedPath(relativePath.value);
        Some(Primary(file, ResolveClassName(relativePath.value), outputRoot.value))
  }

  /** A package-qualified name without '/' is its package directory (back in
      dotted form), a '.', and its short name. */
  lemma SplitRejoins(file: File, className: string, outputRoot: string)
    requires '.' in className && '/' !in className
    ensures var s := Primary(file, className, outputRoot).split.value;
            Dotted(s.pkgDir) + "." + s.shortName == className
  {
    var pos := LastIndexOf(className, '.');
    SlashedRoundTrip(className[..pos]);
    assert className == className[..pos] + "." + className[pos + 1..];
  }

  /** Turning a package directory, a marker and a short name back to dots. */
  lemma DottedCompanion(prefix: string, marker: string, short: string)
    requires '/' !in prefix && '/' !in short
    ensures Dotted(Slashed(prefix) + marker + short) == prefix + Dotted(marker) + short
  {
    SlashedRoundTrip(prefix);
    ReplaceAppend(Slashed(prefix) + marker, short, '/', '.');
    ReplaceAppend(Slashed(prefix), marker, '/', '.');
    assert Dotted(short) == short by {
      forall i | 0 <= i < |short| ensures Dotted(short)[i] == short[i] { assert short[i] != '/'; }
    }
  }

  lemma ShortNameHasNoSlash(className: string)
    requires '.' in className && '/' !in className
    ensures '/' !in className[LastIndexOf(className, '.') + 1..]
    ensures '/' !in className[..LastIndexOf(className, '.')]
  {
    var pos := LastIndexOf(className, '.');
    var short := className[pos + 1..];
    forall i | 0 <= i < |short| ensures short[i] != '/' { assert short[i] == className[pos + 1 + i]; }
    forall i | 0 <= i < pos ensures className[..pos][i] != '/' { assert className[..pos][i] == className[i]; }
  }

  lemma MarkersDotted()
    ensures Dotted("/query/Q") == ".query.Q"
    ensures Dotted("/query/assoc/QAssoc") == ".query.assoc.QAssoc"
  {
  }

  /** The split of a dotted name, as the three-argument constructor makes it. */
  lemma PrimarySplit(file: File, className: string, outputRoot: string)
    requires '.' in className
    ensures var pos := LastIndexOf(className, '.');
            Primary(file, className, outputRoot).split == Some(Split(Slashed(className[..pos]), className[pos + 1..]))
  {
  }

  /** The query bean of "com.x.Foo" is "com.x.query.QFoo". */
  lemma QueryBeanName(file: File, className: string, outputRoot: string, present: set<File>)
    requires '.' in className && '/' !in className
    ensures var q := ToQueryBean(Primary(file, className, outputRoot), present);
            var pos := LastIndexOf(className, '.');
            q.Some? ==> q.value.className == className[..pos] + ".query.Q" + className[pos + 1..]
  {
    var pos := LastIndexOf(className, '.');
    var prefix, short := className[..pos], className[pos + 1..];
    PrimarySplit(file, className, outputRoot);
    ShortNameHasNoSlash(className);
    DottedCompanion(prefix, "/query/Q", short);
    MarkersDotted();
  }

  /** The association query bean of "com.x.Foo" is "com.x.query.assoc.QAssocFoo". */
  lemma QueryAssocBeanName(file: File, className: string, outputRoot: string, present: set<File>)
    requires '.' in className && '/' !in className
    ensures var a := ToQueryAssocBean(Primary(file, className, outputRoot), present);
            var pos := LastIndexOf(className, '.');
            a.Some? ==> a.value.className == className[..pos] + ".query.assoc.QAssoc" + className[pos + 1..]
  {
    var pos := LastIndexOf(className, '.');
    var prefix, short := className[..pos], className[pos + 1..];
    PrimarySplit(file, className, outputRoot);
    ShortNameHasNoSlash(className);
    DottedCompanion(prefix, "/query/assoc/QAssoc", short);
    MarkersDotted();
  }

  /** A companion is never expanded again: it has no companions itself. */
  lemma CompanionsAreLeaves(cf: CompiledFile, present: set<File>)
    ensures var q := ToQueryBean(cf, present); q.Some? ==> ToQueryBean(q.value, present).None? && ToQueryAssocBean(q.value, present).None?
    ensures var a := ToQueryAssocBean(cf, present); a.Some? ==> ToQueryBean(a.value, present).None? && ToQueryAssocBean(a.value, present).None?
  {
  }

  // ---------------------------------------------------------------------
  // The insertion-ordered table (`LinkedHashMap<String, File>`).

  type Table = seq<(string, File)>

  function Keys(t: Table): set<string> {
    if t == [] then {} else {t[0].0} + Keys(t[1..])
  }

  /** Each key at most once. */
  predicate DistinctKeys(t: Table) {
    t == [] || (t[0].0 !in Keys(t[1..]) && DistinctKeys(t[1..]))
  }

  lemma {:induction false} KeysMember(t: Table, k: string)
    ensures k in Keys(t) <==> exists e :: e in t && e.0 == k
  {
    if t != [] {
      KeysMember(t[1..], k);
      if exists e :: e in t && e.0 == k {
        var e :| e in t && e.0 == k;
        if e != t[0] { assert e in t[1..]; }
      }
    }
  }

  /** With distinct keys, no entry after the first has the first's key. */
  lemma HeadKeyOnce(t: Table)
    requires t != []
    ensures DistinctKeys(t) ==> forall i :: 1 <= i < |t| ==> t[i].0 != t[0].0
  {
    if DistinctKeys(t) {
      forall i | 1 <= i < |t| ensures t[i].0 != t[0].0 {
        assert t[i] == t[1..][i - 1] && t[i] in t[1..];
        KeysMember(t[1..], t[i].0);
      }
    }
  }

  /** `put`: a new key goes at the end; an existing key keeps its position
      and takes the new value. */
  function Put(t: Table, k: string, v: File): (r: Table)
    ensures Keys(r) == Keys(t) + {k}
    ensures |r| == if k in Keys(t) then |t| else |t| + 1
    ensures DistinctKeys(t) ==> DistinctKeys(r)
    ensures (k, v) in r
    ensures forall e :: e in r ==> e == (k, v) || e in t
    ensures k !in Keys(t) ==> r == t + [(k, v)]
    ensures DistinctKeys(t) && k in Keys(t) ==>
              |r| == |t| && forall i :: 0 <= i < |t| ==> r[i] == if t[i].0 == k then (k, v) else t[i]
  {
    if t == [] then [(k, v)]
    else if t[0].0 == k then
      assert ([(k, v)] + t[1..])[1..] == t[1..];
      HeadKeyOnce(t);
      [(k, v)] + t[1..]
    else
      var rest := Put(t[1..], k, v);
      assert ([t[0]] + rest)[1..] == rest;
      [t[0]] + rest
  }

  /** The companions a collected class contributes. */
  function Companions(cf: CompiledFile, present: set<File>): seq<CompiledFile> {
    (match ToQueryBean(cf, present) case Some(q) => [q] case None => [])
    + (match ToQueryAssocBean(cf, present) case Some(a) => [a] case None => [])
  }

  function CompanionNamesOf(cf: CompiledFile, present: set<File>): set<string> {
    set c | c in Companions(cf, present) :: c.className
  }

  /** An entry that a collected class or one of its companions puts. */
  ghost predicate FromEntry(e: (string, File), cf: CompiledFile, present: set<File>) {
    e == (cf.className, cf.file) || exists c :: c in Companions(cf, present) && e == (c.className, c.file)
  }

  /** Puts each file under its class name, in order. */
  function PutAll(t: Table, cs: seq<CompiledFile>): (r: Table)
    ensures DistinctKeys(t) ==> DistinctKeys(r)
    decreases |cs|
  {
    if cs == [] then t else PutAll(Put(t, cs[0].className, cs[0].file), cs[1..])
  }

  lemma {:induction false} PutAllKeys(t: Table, cs: seq<CompiledFile>)
    ensures Keys(PutAll(t, cs)) == Keys(t) + set c | c in cs :: c.className
    decreases |cs|
  {
    if cs != [] {
      PutAllKeys(Put(t, cs[0].className, cs[0].file), cs[1..]);
      assert (set c | c in cs :: c.className) == {cs[0].className} + set c | c in cs[1..] :: c.className by {
        assert forall c :: c in cs <==> c == cs[0] || c in cs[1..];
      }
    }
  }

  lemma {:induction false} PutAllEntries(t: Table, cs: seq<CompiledFile>, e: (string, File))
    requires e in PutAll(t, cs)
    ensures e in t || exists c :: c in cs && e == (c.className, c.file)
    decreases |cs|
  {
    if cs != [] {
      PutAllEntries(Put(t, cs[0].className, cs[0].file), cs[1..], e);
      if exists c :: c in cs[1..] && e == (c.className, c.file) {
        var c :| c in cs[1..] && e == (c.className, c.file);
        assert c in cs;
      }
    }
  }

  /** One iteration of the loop in `compilationFinished`: the class itself,
      then its query bean, then its association query bean. */
  function ExpandOne(t: Table, cf: CompiledFile, present: set<File>): (r: Table)
    ensures DistinctKeys(t) ==> DistinctKeys(r)
  {
    PutAll(Put(t, cf.className, cf.file), Companions(cf, present))
  }

  lemma ExpandOneKeys(t: Table, cf: CompiledFile, present: set<File>)
    ensures Keys(ExpandOne(t, cf, present)) == Keys(t) + {cf.className} + CompanionNamesOf(cf, present)
  {
    PutAllKeys(Put(t, cf.className, cf.file), Companions(cf, present));
  }

  lemma ExpandOneEntries(t: Table, cf: CompiledFile, present: set<File>, e: (string, File))
    requires e in ExpandOne(t, cf, present)
    ensures e in t || FromEntry(e, cf, present)
  {
    PutAllEntries(Put(t, cf.className, cf.file), Companions(cf, present), e);
  }

  /** The loop of `compilationFinished` over the collected values, in
      iteration order. */
  function ExpandAll(values: seq<CompiledFile>, present: set<File>): Table {
    if values == [] then [] else ExpandOne(ExpandAll(values[..|values| - 1], present), values[|values| - 1], present)
  }

  /** The names a collected class contributes: its own and its companions'. */
  ghost predicate Named(cf: CompiledFile, present: set<File>, n: string) {
    n == cf.className || n in CompanionNamesOf(cf, present)
  }

  lemma ExpandOneHas(t: Table, cf: CompiledFile, present: set<File>, n: string)
    ensures n in Keys(ExpandOne(t, cf, present)) <==> n in Keys(t) || Named(cf, present, n)
  {
    ExpandOneKeys(t, cf, present);
  }

  /** A name is in the expanded table exactly when it is a collected class
      name or the name of an existing companion of a collected class. */
  lemma {:induction false} ExpandAllKeys(values: seq<CompiledFile>, present: set<File>, n: string)
    ensures n in Keys(ExpandAll(values, present)) <==> exists i :: 0 <= i < |values| && Named(values[i], present, n)
  {
    if values != [] {
      var k := |values| - 1;
      var init, last := values[..k], values[k];
      ExpandAllKeys(init, present, n);
      var prev := ExpandAll(init, present);
      assert ExpandAll(values, present) == ExpandOne(prev, last, present);
      ExpandOneHas(prev, last, present, n);
      if n in Keys(ExpandAll(values, present)) {
        if Named(last, present, n) {
          assert Named(values[k], present, n);
        } else {
          var i :| 0 <= i < |init| && Named(init[i], present, n);
          assert Named(values[i], present, n);
        }
      }
      if exists i :: 0 <= i < |values| && Named(values[i], present, n) {
        var i :| 0 <= i < |values| && Named(values[i], present, n);
        if i < k {
          assert init[i] == values[i];
          assert Named(init[i], present, n);
          assert n in Keys(prev);
        } else {
          assert i == k;
          assert Named(last, present, n);
        }
        assert n in Keys(ExpandAll(values, present));
      }
    }
  }

  /** Each name appears once in the expanded table. */
  lemma {:induction false} ExpandAllDistinct(values: seq<CompiledFile>, present: set<File>)
    ensures DistinctKeys(ExpandAll(values, present))
  {
    if values != [] {
      ExpandAllDistinct(values[..|values| - 1], present);
    }
  }

  /** Every entry of the expanded table is a collected class with its file
      or an existing companion of a collected class with the companion's file. */
  lemma {:induction false} ExpandAllEntries(values: seq<CompiledFile>, present: set<File>, e: (string, File))
    requires e in ExpandAll(values, present)
    ensures exists i :: 0 <= i < |values| && FromEntry(e, values[i], present)
  {
    var init := values[..|values| - 1];
    var last := values[|values| - 1];
    ExpandOneEntries(ExpandAll(init, present), last, present, e);
    if e in ExpandAll(init, present) {
      ExpandAllEntries(init, present, e);
      var i :| 0 <= i < |init| && FromEntry(e, init[i], present);
      assert values[i] == init[i];
    } else {
      assert FromEntry(e, values[|values| - 1], present);
    }
  }

  /** The key of the entry is the class name of its own file. */
  ghost predicate NamedByFile(e: (string, File)) {
    '.' in e.1.child && e.0 == ResolveClassName(e.1.child)
  }

  /** The query bean is named after its own file. */
  lemma QueryBeanNamedByFile(cf: CompiledFile, present: set<File>)
    ensures var q := ToQueryBean(cf, present); q.Some? ==> NamedByFile((q.value.className, q.value.file))
  {
    if cf.split.Some? {
      var sp := cf.split.value;
      QueryPathsAreClassFiles(sp);
      var q := QueryBeanPath(sp);
      ClassNameOfSuffixedPath(q);
      assert q[..|q| - 6] == sp.pkgDir + "/query/Q" + sp.shortName;
    }
  }

  /** The association query bean is named after its own file. */
  lemma QueryAssocBeanNamedByFile(cf: CompiledFile, present: set<File>)
    ensures var a := ToQueryAssocBean(cf, present); a.Some? ==> NamedByFile((a.value.className, a.value.file))
  {
    if cf.split.Some? {
      var sp := cf.split.value;
      QueryPathsAreClassFiles(sp);
      var a := QueryAssocBeanPath(sp);
      ClassNameOfSuffixedPath(a);
      assert a[..|a| - 6] == sp.pkgDir + "/query/assoc/QAssoc" + sp.shortName;
    }
  }

  /** The companions of a class are named after their own files. */
  lemma CompanionsNamedByFile(cf: CompiledFile, present: set<File>)
    ensures forall c :: c in Companions(cf, present) ==> NamedByFile((c.className, c.file))
  {
    var q, a := ToQueryBean(cf, present), ToQueryAssocBean(cf, present);
    QueryBeanNamedByFile(cf, present);
    QueryAssocBeanNamedByFile(cf, present);
    var beans: seq<CompiledFile> := if q.Some? then [q.value] else [];
    var assocs: seq<CompiledFile> := if a.Some? then [a.value] else [];
    assert Companions(cf, present) == beans + assocs;
    forall c | c in beans + assocs ensures NamedByFile((c.className, c.file)) {
      if c in beans { assert c == q.value; } else { assert c == a.value; }
    }
  }

  /** When every collected class is named after its file, so is every
      entry of the expanded table. */
  lemma ExpandAllNamedByFile(values: seq<CompiledFile>, present: set<File>, e: (string, File))
    requires forall i :: 0 <= i < |values| ==> NamedByFile((values[i].className, values[i].file))
    requires e in ExpandAll(values, present)
    ensures NamedByFile(e)
  {
    ExpandAllEntries(values, present, e);
    var i :| 0 <= i < |values| && FromEntry(e, values[i], present);
    FromEntryNamedByFile(e, values[i], present);
  }

  /** An entry taken from a class named after its file is named after its own file. */
  lemma FromEntryNamedByFile(e: (string, File), cf: CompiledFile, present: set<File>)
    requires NamedByFile((cf.className, cf.file)) && FromEntry(e, cf, present)
    ensures NamedByFile(e)
  {
    if e != (cf.className, cf.file) {
      var c :| c in Companions(cf, present) && e == (c.className, c.file);
      CompanionsNamedByFile(cf, present);
    }
  }

  /** Distinct keys, stated position by position. */
  lemma {:induction false} DistinctKeysPairwise(t: Table)
    requires DistinctKeys(t)
    ensures forall i, j :: 0 <= i < j < |t| ==> t[i].0 != t[j].0
  {
    if t != [] {
      var rest := t[1..];
      DistinctKeysPairwise(rest);
      forall i, j | 0 <= i < j < |t| ensures t[i].0 != t[j].0 {
        if i == 0 {
          assert t[j] == rest[j - 1] && t[j] in rest;
          KeysMember(rest, t[j].0);
        } else {
          assert t[i] == rest[i - 1] && t[j] == rest[j - 1];
        }
      }
    }
  }

  /** When every collected class is named after its file, no two entries
      of the expanded table share a file, so the enhancement task writes
      each class file at most once. */
  lemma ExpandAllDistinctFiles(values: seq<CompiledFile>, present: set<File>)
    requires forall i :: 0 <= i < |values| ==> NamedByFile((values[i].className, values[i].file))
    ensures DistinctFiles(ExpandAll(values, present))
  {
    var t := ExpandAll(values, present);
    ExpandAllDistinct(values, present);
    DistinctKeysPairwise(t);
    forall i, j | 0 <= i < j < |t| ensures t[i].1 != t[j].1 {
      ExpandAllNamedByFile(values, present, t[i]);
      ExpandAllNamedByFile(values, present, t[j]);
    }
  }

  /** The collected values in a given key order. */
  function ValuesIn(m: map<string, CompiledFile>, order: seq<string>): (vs: seq<CompiledFile>)
    requires forall k :: k in order ==> k in m
    ensures |vs| == |order| && forall i :: 0 <= i < |order| ==> vs[i] == m[order[i]]
  {
    if order == [] then [] else ValuesIn(m, order[..|order| - 1]) + [m[order[|order| - 1]]]
  }

  /** Expanding one more collected value extends the expansion of those
      before it. */
  lemma ExpandAllNext(m: map<string, CompiledFile>, order: seq<string>, k: string, present: set<File>)
    requires forall j :: j in order ==> j in m
    requires k in m
    ensures ExpandAll(ValuesIn(m, order + [k]), present) == ExpandOne(ExpandAll(ValuesIn(m, order), present), m[k], present)
  {
    var vs := ValuesIn(m, order + [k]);
    assert vs[..|vs| - 1] == ValuesIn(m, order);
  }

  lemma DistinctNext(order: seq<string>, k: string)
    requires Distinct(order) && k !in order
    ensures Distinct(order + [k])
  {
  }

  /** The collector. `compiledClasses` maps each class name to the last
      compiled file reported for it. */
  class Collector {
    var compiledClasses: map<string, CompiledFile>

    /** Every entry is keyed by its own class name (`addClass`), which is
        the class name of its file. */
    ghost predicate Valid()
      reads this
    {
      forall k :: k in compiledClasses ==>
        compiledClasses[k].className == k && NamedByFile((k, compiledClasses[k].file))
    }

    constructor ()
      ensures Valid() && compiledClasses == map[]
    {
      compiledClasses := map[];
    }

    /** `fileGenerated`: an accepted file replaces any earlier entry for the
        same class name; a rejected notification changes nothing. */
    method FileGenerated(outputRoot: Option<string>, relativePath: Option<string>, present: set<File>)
      requires Valid()
      modifies this
      ensures Valid()
      ensures compiledClasses == match CreateCompiledFile(outputRoot, relativePath, present)
                                 case Some(cf) => old(compiledClasses)[cf.className := cf]
                                 case None => old(compiledClasses)
    {
      var compiledFile := CreateCompiledFile(outputRoot, relativePath, present);
      if compiledFile.Some? {
        ClassNameOfSuffixedPath(relativePath.value);
        compiledClasses := compiledClasses[compiledFile.value.className := compiledFile.value];
      }
    }

    /** `compilationFinished`: every collected value, in the map's iteration
        order (`order`, which a HashMap leaves unspecified), is expanded with
        its companions into the table handed to the enhancement task; the
        collector then starts over with an empty map. */
    method CompilationFinished(present: set<File>) returns (table: Table, ghost order: seq<string>)
      requires Valid()
      modifies this
      ensures Valid() && compiledClasses == map[]
      ensures Distinct(order) && (forall k :: k in order <==> k in old(compiledClasses))
      ensures table == ExpandAll(ValuesIn(old(compiledClasses), order), present)
      ensures DistinctFiles(table)
    {
      var values := compiledClasses;
      var remaining := values.Keys;
      table := [];
      order := [];
      while remaining != {}
        invariant remaining <= values.Keys
        invariant forall k :: k in order <==> k in values && k !in remaining
        invariant Distinct(order)
        invariant table == ExpandAll(ValuesIn(values, order), present)
        decreases remaining
      {
        var k :| k in remaining;
        ExpandAllNext(values, order, k, present);
        DistinctNext(order, k);
        table := ExpandOne(table, values[k], present);
        order := order + [k];
        remaining := remaining - {k};
      }
      ExpandAllDistinctFiles(ValuesIn(values, order), present);
      compiledClasses := map[];
    }
  }
}
