/** Values shared by every part of the model: optional values (Java's null),
    byte buffers, and java.io.File handles. */
module Common {

  /** A Java reference that may be null. */
  datatype Option<+T> = None | Some(value: T) {
    function GetOr(default: T): T {
      match this
      case Some(v) => v
      case None => default
    }
  }

  /** The contents of a class file. */
  type Bytes = seq<bv8>

  /** `new java.io.File(parent, child)`: a parent directory (null is allowed
      by the constructor) and a path relative to it. */
  datatype File = File(parent: Option<string>, child: string)

  /** The local disk as the model sees it: the files that exist, and the
      contents of those that can be read (an existing file missing from
      `contents` is one whose read throws an IOException). */
  datatype Disk = Disk(present: set<File>, contents: map<File, Bytes>)

  /** `f` applied to every element, in order. */
  function MapSeq<A, B>(f: A -> B, xs: seq<A>): (ys: seq<B>)
    ensures |ys| == |xs| && forall i :: 0 <= i < |xs| ==> ys[i] == f(xs[i])
  {
    if xs == [] then [] else MapSeq(f, xs[..|xs| - 1]) + [f(xs[|xs| - 1])]
  }

  lemma MapSeqAppend<A, B>(f: A -> B, a: seq<A>, b: seq<A>)
    ensures MapSeq(f, a + b) == MapSeq(f, a) + MapSeq(f, b)
  {
  }

  /** The blocks one after the other. */
  function Flatten<T>(bs: seq<seq<T>>): seq<T> {
    if bs == [] then [] else Flatten(bs[..|bs| - 1]) + bs[|bs| - 1]
  }

  lemma {:induction false} FlattenAppend<T>(a: seq<seq<T>>, b: seq<seq<T>>)
    ensures Flatten(a + b) == Flatten(a) + Flatten(b)
    decreases |b|
  {
    if b == [] {
      assert a + b == a;
    } else {
      var init, last := b[..|b| - 1], b[|b| - 1];
      assert (a + b)[..|a + b| - 1] == a + init;
      calc {
        Flatten(a + b);
        Flatten(a + init) + last;
        { FlattenAppend(a, init); }
        Flatten(a) + Flatten(init) + last;
        Flatten(a) + Flatten(b);
      }
    }
  }

  /** No element occurs twice. */
  predicate Distinct<T(==)>(s: seq<T>) {
    forall i, j :: 0 <= i < j < |s| ==> s[i] != s[j]
  }

  /** The sequence ends with `x`. */
  predicate EndsIn<T(==)>(s: seq<T>, x: T) {
    s != [] && s[|s| - 1] == x
  }

  /** What a log ends with stays in it as it grows. */
  lemma EndsInKept<T>(a: seq<T>, b: seq<T>, x: T)
    requires EndsIn(a, x) && a <= b
    ensures x in b
  {
    assert b[|a| - 1] == x;
  }

  /** What a log gained between two points splits where it passed a third. */
  lemma GainSplit<T>(a: seq<T>, b: seq<T>, c: seq<T>)
    requires a <= b <= c
    ensures c[|a|..] == b[|a|..] + c[|b|..]
  {
  }

  /** A class the JVM defined from bytes (`ClassLoader.defineClass`): each
      definition is a new object. */
  class DefinedClass {
    const name: string
    const bytes: Bytes

    constructor (name: string, bytes: Bytes)
      ensures this.name == name && this.bytes == bytes
    {
      this.name := name;
      this.bytes := bytes;
    }
  }
}

/** String operations the source takes from java.lang.String. */
module Text {

  /** `s.lastIndexOf(c)`: the position of the last `c`, or -1. */
  function LastIndexOf(s: string, c: char): (r: int)
    ensures -1 <= r < |s|
    ensures r == -1 <==> c !in s
    ensures r >= 0 ==> s[r] == c && c !in s[r + 1..]
  {
    if s == [] then -1
    else if s[|s| - 1] == c then |s| - 1
    else
      assert s == s[..|s| - 1] + [s[|s| - 1]];
      LastIndexOf(s[..|s| - 1], c)
  }

  /** `s.replace(a, b)` on characters: every `a` becomes `b`. */
  function Replace(s: string, a: char, b: char): (r: string)
    ensures |r| == |s|
    ensures forall i :: 0 <= i < |s| ==> r[i] == if s[i] == a then b else s[i]
  {
    if s == [] then [] else Replace(s[..|s| - 1], a, b) + [if s[|s| - 1] == a then b else s[|s| - 1]]
  }

  /** `s.endsWith(suffix)`. */
  predicate EndsWith(s: string, suffix: string) {
    |suffix| <= |s| && s[|s| - |suffix|..] == suffix
  }

  /** `s.startsWith(prefix)`. */
  predicate StartsWith(s: string, prefix: string) {
    |prefix| <= |s| && s[..|prefix|] == prefix
  }

  /** `s.replace(target, replacement)` on strings: occurrences of a non-empty
      `target` are replaced from left to right, never overlapping. */
  function ReplaceAll(s: string, target: string, replacement: string): (r: string)
    requires target != []
    decreases |s|
  {
    if s == [] then []
    else if StartsWith(s, target) then replacement + ReplaceAll(s[|target|..], target, replacement)
    else [s[0]] + ReplaceAll(s[1..], target, replacement)
  }

  /** After replacing `a` by a different `b`, no `a` is left. */
  lemma ReplaceRemoves(s: string, a: char, b: char)
    requires a != b
    ensures a !in Replace(s, a, b)
  {
    var r := Replace(s, a, b);
    forall i | 0 <= i < |r| ensures r[i] != a {}
  }

  lemma ReplaceAppend(s: string, t: string, a: char, b: char)
    ensures Replace(s + t, a, b) == Replace(s, a, b) + Replace(t, a, b)
  {
    var l, r := Replace(s + t, a, b), Replace(s, a, b) + Replace(t, a, b);
    forall i | 0 <= i < |l| ensures l[i] == r[i] {
      if i < |s| { assert (s + t)[i] == s[i]; } else { assert (s + t)[i] == t[i - |s|]; }
    }
  }

  /** Replacing `a` by `b` and then `b` by `a` gives the original back when
      the original held no `b`. */
  lemma ReplaceRoundTrip(s: string, a: char, b: char)
    requires b !in s
    ensures Replace(Replace(s, a, b), b, a) == s
  {
    var r := Replace(Replace(s, a, b), b, a);
    forall i | 0 <= i < |s| ensures r[i] == s[i] {
      assert s[i] != b;
    }
  }

  /** Text without an occurrence of the target passes through unchanged. */
  lemma {:induction false} ReplaceAllNoOccurrence(s: string, target: string, replacement: string)
    requires target != []
    requires forall k :: 0 <= k <= |s| ==> !StartsWith(s[k..], target)
    ensures ReplaceAll(s, target, replacement) == s
    decreases |s|
  {
    if s != [] {
      assert s[0..] == s;
      forall k | 0 <= k <= |s[1..]| ensures !StartsWith(s[1..][k..], target) {
        assert s[1..][k..] == s[k + 1..];
      }
      ReplaceAllNoOccurrence(s[1..], target, replacement);
    }
  }

  /** When the target and its replacement both end in `c`, the replacement
      keeps a trailing `c` in place. */
  lemma {:induction false} ReplaceAllKeepsLast(s: string, target: string, replacement: string, c: char)
    requires target != [] && target[|target| - 1] == c
    requires replacement != [] && replacement[|replacement| - 1] == c
    requires s != [] && s[|s| - 1] == c
    ensures var r := ReplaceAll(s, target, replacement); r != [] && r[|r| - 1] == c
    decreases |s|
  {
    var r := ReplaceAll(s, target, replacement);
    if StartsWith(s, target) {
      var rest := s[|target|..];
      var t := ReplaceAll(rest, target, replacement);
      assert r == replacement + t;
      if rest != [] {
        ReplaceAllKeepsLast(rest, target, replacement, c);
      }
    } else {
      var rest := s[1..];
      var t := ReplaceAll(rest, target, replacement);
      assert r == [s[0]] + t;
      if rest != [] {
        ReplaceAllKeepsLast(rest, target, replacement, c);
      }
    }
  }
}
