/** Class names and class-file paths: the two textual forms of a class's
    identity (`a.b.C` and `a/b/C`) and the path-to-name rule both collector
    generations use. */
module ClassNames {
  import opened Text

  const ClassSuffix: string := ".class"

  /** `resolveClassName`: the text before the last '.', with every '/'
      turned into '.'. Both callers pass a path ending in ".class", so the
      path always holds a '.'. */
  function ResolveClassName(relativePath: string): (r: string)
    requires '.' in relativePath
    ensures '/' !in r
    ensures |r| < |relativePath|
  {
    var pos := LastIndexOf(relativePath, '.');
    ReplaceRemoves(relativePath[..pos], '/', '.');
    Replace(relativePath[..pos], '/', '.')
  }

  /** The dotted form of a slash-separated name. */
  function Dotted(name: string): (r: string)
    ensures '/' !in r && |r| == |name|
  {
    ReplaceRemoves(name, '/', '.');
    Replace(name, '/', '.')
  }

  /** The slash-separated form of a dotted name. */
  function Slashed(name: string): (r: string)
    ensures '.' !in r && |r| == |name|
  {
    ReplaceRemoves(name, '.', '/');
    Replace(name, '.', '/')
  }

  /** The class name the project index understands (`convertToClassName`
      in one generation, written inline in the other): both '/' and '$'
      become '.', so a nested class "a/B$C" is looked up as "a.B.C". */
  function IndexName(classNamePath: string): (r: string)
    ensures |r| == |classNamePath| && '/' !in r && '$' !in r
    ensures forall i :: 0 <= i < |r| ==>
              r[i] == if classNamePath[i] == '/' || classNamePath[i] == '$' then '.' else classNamePath[i]
  {
    ReplaceRemoves(classNamePath, '/', '.');
    ReplaceRemoves(Replace(classNamePath, '/', '.'), '$', '.');
    Replace(Replace(classNamePath, '/', '.'), '$', '.')
  }

  /** The compiled table and the index name a nested class differently:
      the table by "a.B$C", the index by "a.B.C". */
  lemma NestedClassNames()
    ensures Dotted("a/B$C") == "a.B$C"
    ensures IndexName("a/B$C") == "a.B.C"
  {
    var d, c := Dotted("a/B$C"), IndexName("a/B$C");
    assert d[0] == 'a' && d[1] == '.' && d[2] == 'B' && d[3] == '$' && d[4] == 'C';
    assert c[0] == 'a' && c[1] == '.' && c[2] == 'B' && c[3] == '.' && c[4] == 'C';
  }

  /** A path ending in ".class" holds a '.'. */
  lemma ClassPathHasDot(p: string)
    requires EndsWith(p, ClassSuffix)
    ensures '.' in p
  {
    assert p[|p| - 6] == p[|p| - 6..][0] == '.';
  }

  /** The class name of `p + ".class"` is `p` with every '/' made '.':
      "com/x/Foo.class" names "com.x.Foo". */
  lemma ClassNameOfClassFile(p: string)
    ensures '.' in p + ClassSuffix
    ensures ResolveClassName(p + ClassSuffix) == Dotted(p)
  {
    var s := p + ClassSuffix;
    assert s[|p|] == '.';
    assert s[|p| + 1..] == "class";
    assert LastIndexOf(s, '.') == |p|;
    assert s[..|p|] == p;
  }

  /** The same rule stated for any path that ends in ".class". */
  lemma ClassNameOfSuffixedPath(p: string)
    requires EndsWith(p, ClassSuffix)
    ensures '.' in p && ResolveClassName(p) == Dotted(p[..|p| - 6])
  {
    var stem := p[..|p| - 6];
    assert p == stem + ClassSuffix;
    ClassNameOfClassFile(stem);
  }

  /** The two forms name the same class: converting a name to its slashed
      form and back to dots gives the dotted form of the original, whichever
      form it was written in. */
  lemma DottedOfSlashed(name: string)
    ensures Dotted(Slashed(name)) == Dotted(name)
  {
    var l, r := Dotted(Slashed(name)), Dotted(name);
    forall i | 0 <= i < |name| ensures l[i] == r[i] {}
  }

  /** A slashed name with no '/' originally: going to dots restores it. */
  lemma SlashedRoundTrip(name: string)
    requires '/' !in name
    ensures Dotted(Slashed(name)) == name
  {
    ReplaceRoundTrip(name, '.', '/');
  }
}
