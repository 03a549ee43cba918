/** What the enhancement tasks of every generation share: the faults the
    weaver can raise, what it answers for one class, and the table of
    compiled classes as the tasks iterate it. The weaver itself is not part
    of this model; each task takes it as a function. */
module Weaving {
  import opened Common
  import opened ClassNames

  /** An exception the weaver throws: an `IOException`, any other
      `Exception`, or an `Error` (a `Throwable` that is no `Exception`). */
  datatype Fault = IOFault(message: string) | OtherException(message: string) | FatalError(message: string)

  /** Why one class was not enhanced: its file could not be read (an
      `IOException` from `FileInputStream`), or the weaver threw. */
  datatype Cause = Unreadable | Thrown(fault: Fault)

  /** The weaver's answer for one class: no change (null), new bytes, or an
      exception; and the lines it wrote to its log sink while working. */
  datatype Outcome = Unchanged | Enhanced(bytes: Bytes) | Raised(fault: Fault)
  datatype Transformed = Transformed(outcome: Outcome, log: seq<string>)

  /** An entry of the compiled-class table: a class name and its file. */
  type Entry = (string, File)

  /** The entries of a hash map in its iteration order, which the model
      takes as a parameter: `order` lists each key once. */
  function EntriesOf(m: map<string, File>, order: seq<string>): (es: seq<Entry>)
    requires forall k <- order :: k in m
    ensures |es| == |order|
    ensures forall i :: 0 <= i < |order| ==> es[i] == (order[i], m[order[i]])
  {
    if order == [] then [] else EntriesOf(m, order[..|order| - 1]) + [(order[|order| - 1], m[order[|order| - 1]])]
  }

  /** The order lists every key of the map exactly once. */
  ghost predicate IsIterationOrder(m: map<string, File>, order: seq<string>) {
    Distinct(order) && forall k :: k in order <==> k in m
  }

  /** An entry the iteration lists is an entry of the map. */
  lemma EntriesOfListed(m: map<string, File>, order: seq<string>, k: string, f: File)
    requires IsIterationOrder(m, order)
    requires exists i :: 0 <= i < |order| && EntriesOf(m, order)[i] == (k, f)
    ensures k in m && f == m[k]
  {
    var es := EntriesOf(m, order);
    var i :| 0 <= i < |order| && es[i] == (k, f);
    assert order[i] in order;
  }

  /** With an iteration order, every entry of the map is listed. */
  lemma EntriesOfCovers(m: map<string, File>, order: seq<string>, k: string)
    requires IsIterationOrder(m, order) && k in m
    ensures exists i :: 0 <= i < |order| && EntriesOf(m, order)[i] == (k, m[k])
  {
    var es := EntriesOf(m, order);
    assert k in order;
    var i :| 0 <= i < |order| && order[i] == k;
    assert es[i] == (k, m[k]);
  }

  /** With an iteration order, no key is listed twice. */
  lemma EntriesOfOnce(m: map<string, File>, order: seq<string>)
    requires IsIterationOrder(m, order)
    ensures forall i, j :: 0 <= i < j < |order| ==> EntriesOf(m, order)[i].0 != EntriesOf(m, order)[j].0
  {
  }

  /** Every key is the class name of its own file: the file's path names a
      class file, and `resolveClassName` of that path is the key. Both
      collectors keep their tables this way. */
  ghost predicate KeyedByFile(m: map<string, File>) {
    forall k :: k in m ==> '.' in m[k].child && k == ResolveClassName(m[k].child)
  }

  /** A table whose keys are the class names of their files lists distinct
      files in any iteration order. */
  lemma IterationOrderDistinctFiles(m: map<string, File>, order: seq<string>)
    requires IsIterationOrder(m, order) && KeyedByFile(m)
    ensures DistinctFiles(EntriesOf(m, order))
  {
    var es := EntriesOf(m, order);
    forall i, j | 0 <= i < j < |es| ensures es[i].1 != es[j].1 {
      assert order[i] in m && order[j] in m;
      assert order[i] != order[j];
    }
  }

  /** No two entries have the same file. */
  ghost predicate DistinctFiles(es: seq<Entry>) {
    forall i, j :: 0 <= i < j < |es| ==> es[i].1 != es[j].1
  }

  /** The file is not the file of any entry. */
  ghost predicate NotInTable(f: File, es: seq<Entry>) {
    forall i :: 0 <= i < |es| ==> es[i].1 != f
  }

  /** The disk agrees with another at one file. */
  ghost predicate SameAt(d1: map<File, Bytes>, d2: map<File, Bytes>, f: File) {
    (f in d1 <==> f in d2) && (f in d1 ==> d1[f] == d2[f])
  }

  /** Dropping the first entry keeps the files distinct. */
  lemma DistinctRest(es: seq<Entry>)
    requires es != [] && DistinctFiles(es)
    ensures DistinctFiles(es[1..])
  {
    var rest := es[1..];
    forall a, b | 0 <= a < b < |rest| ensures rest[a].1 != rest[b].1 {
      assert rest[a] == es[a + 1] && rest[b] == es[b + 1];
    }
  }
}
