/**
 * PHP's ordered arrays as sequences of key/value entries, with the array
 * operations the plugin uses: reading `$a[$k]`, `isset($a[$k])`, writing
 * `$a[$k] = $v`, copying with `foreach`, `in_array`, `array_diff` and
 * `array_merge`.
 */
module PhpArrays {
  import opened PhpValues

  /** PHP arrays never hold a key twice. */
  predicate DistinctKeys<V>(a: seq<(Key, V)>)
  {
    forall i, j :: 0 <= i < j < |a| ==> a[i].0 != a[j].0
  }

  /** `$a[$k]`: the value stored under `k`, or None when the key is absent. */
  function Get(a: Entries, k: Key): (r: Option<Value>)
    ensures r.None? <==> forall i :: 0 <= i < |a| ==> a[i].0 != k
  {
    if a == [] then None
    else if a[0].0 == k then Some(a[0].1)
    else
      var r := Get(a[1..], k);
      assert forall i :: 1 <= i < |a| ==> a[i] == a[1..][i - 1];
      r
  }

  /** A value read from an array is stored there under that key. */
  lemma {:induction false} GetFound(a: Entries, k: Key)
    requires Get(a, k).Some?
    ensures exists i :: 0 <= i < |a| && a[i] == (k, Get(a, k).value)
  {
    if a[0].0 != k {
      GetFound(a[1..], k);
      var i :| 0 <= i < |a[1..]| && a[1..][i] == (k, Get(a, k).value);
      assert a[i + 1] == a[1..][i];
    }
  }

  /** In an array with distinct keys, reading the key of any entry gives its value. */
  lemma {:induction false} GetAt(a: Entries, i: nat)
    requires DistinctKeys(a) && i < |a|
    ensures Get(a, a[i].0) == Some(a[i].1)
  {
    if i > 0 {
      assert DistinctKeys(a[1..]) by {
        forall x, y | 0 <= x < y < |a[1..]|
          ensures a[1..][x].0 != a[1..][y].0
        {
          assert a[1..][x] == a[x + 1] && a[1..][y] == a[y + 1];
        }
      }
      GetAt(a[1..], i - 1);
      assert a[1..][i - 1] == a[i];
    }
  }

  /** Reading from an array with one more entry in front. */
  lemma GetCons(e: (Key, Value), b: Entries, k: Key)
    ensures Get([e] + b, k) == if e.0 == k then Some(e.1) else Get(b, k)
  {
    assert ([e] + b)[0] == e && ([e] + b)[1..] == b;
  }

  /** Reading from an array extended at the end: the earlier entries win. */
  lemma {:induction false} GetAppend(a: Entries, e: (Key, Value), k: Key)
    ensures Get(a + [e], k) == if Get(a, k).Some? then Get(a, k) else if e.0 == k then Some(e.1) else None
  {
    if a != [] {
      GetAppend(a[1..], e, k);
      assert (a + [e])[1..] == a[1..] + [e];
    }
  }

  /** Reading `$a[$k]` as an expression: a missing key reads as null. */
  function Read(a: Entries, k: Key): Value
  {
    match Get(a, k)
    case Some(v) => v
    case None => Null
  }

  /** `isset($a[$k])`: the key is present and its value is not null. */
  predicate IsSet(a: Entries, k: Key)
  {
    Get(a, k).Some? && Get(a, k).value != Null
  }

  /** `$a[$k]` reads a non-null value exactly when `isset($a[$k])`, and that
      value is stored in the array under `k`. */
  lemma ReadNonNullIffSet(a: Entries, k: Key)
    ensures Read(a, k) != Null <==> IsSet(a, k)
    ensures Read(a, k) != Null ==> exists i :: 0 <= i < |a| && a[i] == (k, Read(a, k))
  {
    if Get(a, k).Some? {
      GetFound(a, k);
    }
  }

  /** Every key of the array is as PHP stores it. */
  predicate WellFormedKeys(a: Entries)
  {
    forall i :: 0 <= i < |a| ==> WellFormedKey(a[i].0)
  }

  /** Every key of `a` is still at its position in `r`. */
  predicate KeyPrefix(a: Entries, r: Entries)
  {
    |a| <= |r| && forall i :: 0 <= i < |a| ==> r[i].0 == a[i].0
  }

  /** `$a[$k] = $v`: the key takes the new value, every other key keeps its
      value, and a key not yet present is appended at the end. */
  function Put(a: Entries, k: Key, v: Value): (r: Entries)
    ensures Get(r, k) == Some(v)
    ensures forall k' :: k' != k ==> Get(r, k') == Get(a, k')
    ensures Get(a, k).None? ==> r == a + [(k, v)]
  {
    if a == [] then [(k, v)]
    else if a[0].0 == k then
      var r := [(k, v)] + a[1..];
      assert a == [a[0]] + a[1..];
      assert forall k' :: Get(r, k') == if k' == k then Some(v) else Get(a[1..], k') by {
        forall k' { GetCons((k, v), a[1..], k'); }
      }
      assert forall k' :: k' != k ==> Get(a, k') == Get(a[1..], k') by {
        forall k' { GetCons(a[0], a[1..], k'); }
      }
      r
    else
      var rest := Put(a[1..], k, v);
      var r := [a[0]] + rest;
      assert a == [a[0]] + a[1..];
      assert forall k' :: Get(r, k') == if k' == a[0].0 then Some(a[0].1) else Get(rest, k') by {
        forall k' { GetCons(a[0], rest, k'); }
      }
      assert forall k' :: Get(a, k') == if k' == a[0].0 then Some(a[0].1) else Get(a[1..], k') by {
        forall k' { GetCons(a[0], a[1..], k'); }
      }
      r
  }

  /** Writing an existing key keeps every key in its position and the length;
      writing a new one appends it. */
  lemma {:induction false} PutKeys(a: Entries, k: Key, v: Value)
    ensures KeyPrefix(a, Put(a, k, v))
    ensures |Put(a, k, v)| == if Get(a, k).Some? then |a| else |a| + 1
  {
    if a != [] && a[0].0 != k {
      PutKeys(a[1..], k, v);
      assert Put(a, k, v) == [a[0]] + Put(a[1..], k, v);
      GetCons(a[0], a[1..], k);
      assert a == [a[0]] + a[1..];
    }
  }

  /** Writing into an array keeps its keys distinct. */
  lemma PutDistinct(a: Entries, k: Key, v: Value)
    requires DistinctKeys(a)
    ensures DistinctKeys(Put(a, k, v))
  {
    var r := Put(a, k, v);
    if Get(a, k).Some? {
      PutKeys(a, k, v);
      forall i, j | 0 <= i < j < |r|
        ensures r[i].0 != r[j].0
      {
        assert r[i].0 == a[i].0 && r[j].0 == a[j].0;
      }
    } else {
      assert r == a + [(k, v)];
      forall i, j | 0 <= i < j < |r|
        ensures r[i].0 != r[j].0
      {
        assert r[i] == a[i];
        if j < |a| {
          assert r[j] == a[j];
        } else {
          assert r[j].0 == k && a[i].0 != k;
        }
      }
    }
  }

  /** Writing the value a key already holds changes nothing. */
  lemma {:induction false} PutUnchanged(a: Entries, k: Key, v: Value)
    requires Get(a, k) == Some(v)
    ensures Put(a, k, v) == a
  {
    assert a == [a[0]] + a[1..];
    if a[0].0 != k {
      GetCons(a[0], a[1..], k);
      PutUnchanged(a[1..], k, v);
    }
  }

  /** Writing under a key as PHP stores it keeps every key as PHP stores it. */
  lemma PutWellFormed(a: Entries, k: Key, v: Value)
    requires WellFormedKeys(a) && WellFormedKey(k)
    ensures WellFormedKeys(Put(a, k, v))
  {
    var r := Put(a, k, v);
    PutKeys(a, k, v);
    forall i | 0 <= i < |r|
      ensures WellFormedKey(r[i].0)
    {
      if i >= |a| {
        assert Get(a, k).None? && r == a + [(k, v)];
      }
    }
  }

  /** `foreach ($xs as $k => $v) { $a[$k] = $v; }` */
  function PutAll(a: Entries, xs: Entries): Entries
  {
    if xs == [] then a
    else
      var last := xs[|xs| - 1];
      Put(PutAll(a, xs[..|xs| - 1]), last.0, last.1)
  }

  /** Copying an array with distinct keys into `a`: its keys take their copied
      values, every other key keeps its value in `a`. */
  lemma {:induction false} PutAllGet(a: Entries, xs: Entries, k: Key)
    requires DistinctKeys(xs)
    ensures Get(PutAll(a, xs), k) == if Get(xs, k).Some? then Get(xs, k) else Get(a, k)
  {
    if xs != [] {
      var p := xs[..|xs| - 1];
      var last := xs[|xs| - 1];
      PutAllGet(a, p, k);
      assert xs == p + [last];
      GetAppend(p, last, k);
      if last.0 == k {
        assert Get(p, k).None?;
      }
    }
  }

  /** Copying an array with distinct keys into an empty one gives that array. */
  lemma {:induction false} PutAllIntoEmpty(xs: Entries)
    requires DistinctKeys(xs)
    ensures PutAll([], xs) == xs
  {
    if xs != [] {
      var p := xs[..|xs| - 1];
      var last := xs[|xs| - 1];
      assert DistinctKeys(p);
      PutAllIntoEmpty(p);
      assert Get(p, last.0).None?;
      assert xs == p + [last];
    }
  }

  /** Copying into `a` keeps every key of `a` where it was, and keeps keys distinct. */
  lemma {:induction false} PutAllKeepsOrder(a: Entries, xs: Entries)
    ensures KeyPrefix(a, PutAll(a, xs))
    ensures DistinctKeys(a) ==> DistinctKeys(PutAll(a, xs))
  {
    if xs != [] {
      PutAllKeepsOrder(a, xs[..|xs| - 1]);
      var b := PutAll(a, xs[..|xs| - 1]);
      PutKeys(b, xs[|xs| - 1].0, xs[|xs| - 1].1);
      if DistinctKeys(a) {
        PutDistinct(b, xs[|xs| - 1].0, xs[|xs| - 1].1);
      }
    }
  }

  /** Copying an array whose keys are as PHP stores them keeps `a`'s keys so. */
  lemma {:induction false} PutAllWellFormed(a: Entries, xs: Entries)
    requires WellFormedKeys(a) && WellFormedKeys(xs)
    ensures WellFormedKeys(PutAll(a, xs))
  {
    if xs != [] {
      PutAllWellFormed(a, xs[..|xs| - 1]);
      PutWellFormed(PutAll(a, xs[..|xs| - 1]), xs[|xs| - 1].0, xs[|xs| - 1].1);
    }
  }

  /** A PHP list: the values under the keys 0, 1, 2, … as `array(...)` or
      `$a[] = $v` from an empty array builds them. */
  function ListEntries(vs: seq<Value>): (r: Entries)
    ensures |r| == |vs| && forall i :: 0 <= i < |vs| ==> r[i] == (IntKey(i), vs[i])
  {
    seq(|vs|, i requires 0 <= i < |vs| => (IntKey(i), vs[i]))
  }

  /** The values of an array, in order. */
  function ValuesOf(a: Entries): (vs: seq<Value>)
    ensures |vs| == |a| && forall i :: 0 <= i < |a| ==> vs[i] == a[i].1
  {
    seq(|a|, i requires 0 <= i < |a| => a[i].1)
  }

  // ---------------------------------------------------------------------------
  // in_array
  // ---------------------------------------------------------------------------

  /** `in_array($needle, $haystack)` with loose comparison; a haystack that is
      not an array is a TypeError in PHP 8. */
  function InArray(needle: Value, haystack: Value): Result<bool>
    requires !needle.Arr?
  {
    match haystack
    case Arr(e) => Ok(exists i :: 0 <= i < |e| && LooseEq(needle, e[i].1))
    case _ => Fatal("in_array(): Argument #2 ($haystack) must be of type array")
  }

  /** `in_array` on a PHP list: some element is loosely equal to the needle. */
  lemma InArrayList(needle: Value, vs: seq<Value>)
    requires !needle.Arr?
    ensures InArray(needle, Arr(ListEntries(vs))) == Ok(exists v :: v in vs && LooseEq(needle, v))
  {
    var e := ListEntries(vs);
    if exists v :: v in vs && LooseEq(needle, v) {
      var v :| v in vs && LooseEq(needle, v);
      var i :| 0 <= i < |vs| && vs[i] == v;
      assert e[i].1 == v;
    }
    if exists i :: 0 <= i < |e| && LooseEq(needle, e[i].1) {
      var i :| 0 <= i < |e| && LooseEq(needle, e[i].1);
      assert vs[i] in vs;
    }
  }

  // ---------------------------------------------------------------------------
  // array_diff
  // ---------------------------------------------------------------------------

  /** `x` is `y` with some elements left out, the rest in their order. */
  predicate IsSubsequence<T(==)>(x: seq<T>, y: seq<T>)
  {
    x == [] ||
    (y != [] &&
     ((x[|x| - 1] == y[|y| - 1] && IsSubsequence(x[..|x| - 1], y[..|y| - 1])) ||
      IsSubsequence(x, y[..|y| - 1])))
  }

  /** `array_diff($a, $excl)`: the entries of `a` whose value, as a string, is
      not one of `excl`, with their keys and in their order. */
  function ArrayDiff(a: Entries, excl: seq<string>): Entries
  {
    if a == [] then []
    else
      var kept := ArrayDiff(a[..|a| - 1], excl);
      if StringOf(a[|a| - 1].1) in excl then kept else kept + [a[|a| - 1]]
  }

  /** `array_diff` keeps exactly the entries whose value is not excluded, in their
      original order and under their original keys. */
  lemma {:induction false} ArrayDiffSpec(a: Entries, excl: seq<string>)
    ensures IsSubsequence(ArrayDiff(a, excl), a)
    ensures forall e :: e in ArrayDiff(a, excl) <==> e in a && StringOf(e.1) !in excl
  {
    if a != [] {
      var p := a[..|a| - 1];
      ArrayDiffSpec(p, excl);
      assert a == p + [a[|a| - 1]];
    }
  }

  /** For an array with distinct keys, `array_diff` drops exactly the keys whose
      value is excluded. */
  lemma {:induction false} ArrayDiffGet(a: Entries, excl: seq<string>, k: Key)
    requires DistinctKeys(a)
    ensures Get(ArrayDiff(a, excl), k) ==
            if Get(a, k).Some? && StringOf(Get(a, k).value) !in excl then Get(a, k) else None
  {
    if a != [] {
      var p := a[..|a| - 1];
      var last := a[|a| - 1];
      assert DistinctKeys(p);
      ArrayDiffGet(p, excl, k);
      assert a == p + [last];
      GetAppend(p, last, k);
      if StringOf(last.1) !in excl {
        GetAppend(ArrayDiff(p, excl), last, k);
      }
      if last.0 == k {
        assert Get(p, k).None?;
      }
    }
  }

  /** `array_diff` keeps the keys of an array distinct. */
  lemma {:induction false} ArrayDiffDistinct(a: Entries, excl: seq<string>)
    requires DistinctKeys(a)
    ensures DistinctKeys(ArrayDiff(a, excl))
  {
    if a != [] {
      var p := a[..|a| - 1];
      ArrayDiffDistinct(p, excl);
      ArrayDiffSpec(p, excl);
      var kept := ArrayDiff(p, excl);
      forall i | 0 <= i < |kept|
        ensures kept[i].0 != a[|a| - 1].0
      {
        assert kept[i] in p;
      }
    }
  }

  // ---------------------------------------------------------------------------
  // array_merge
  // ---------------------------------------------------------------------------

  /** The number of integer-keyed entries. */
  function IntKeyCount(a: Entries): nat
  {
    if a == [] then 0
    else IntKeyCount(a[..|a| - 1]) + (if a[|a| - 1].0.IntKey? then 1 else 0)
  }

  /** One step of `array_merge`: an integer-keyed entry is appended under the
      next free index of the result, a string-keyed one is written with `$r[$k] = $v`. */
  function MergeStep(acc: Entries, e: (Key, Value)): Entries
  {
    if e.0.IntKey? then acc + [(IntKey(IntKeyCount(acc)), e.1)] else Put(acc, e.0, e.1)
  }

  function MergeAll(xs: Entries): Entries
  {
    if xs == [] then []
    else MergeStep(MergeAll(xs[..|xs| - 1]), xs[|xs| - 1])
  }

  /** `array_merge($a, $b)`. */
  function ArrayMerge(a: Entries, b: Entries): Entries
  {
    MergeAll(a + b)
  }

  /** No string key occurs twice. */
  predicate DistinctStrKeys(xs: Entries)
  {
    forall i, j :: 0 <= i < j < |xs| && xs[i].0.StrKey? ==> xs[i].0 != xs[j].0
  }

  /** Two arrays whose keys are of the same kinds, position by position, have
      as many integer keys. */
  lemma {:induction false} IntKeyCountSameKinds(a: Entries, b: Entries)
    requires |a| == |b| && forall i :: 0 <= i < |a| ==> a[i].0.IntKey? == b[i].0.IntKey?
    ensures IntKeyCount(a) == IntKeyCount(b)
  {
    if a != [] {
      IntKeyCountSameKinds(a[..|a| - 1], b[..|b| - 1]);
    }
  }

  /** Entry `i` of `xs` landed in `r` under `array_merge`'s key for it. */
  predicate MergedAt(xs: Entries, r: Entries, i: nat)
    requires i < |xs| && i < |r|
  {
    r[i].1 == xs[i].1 &&
    r[i].0 == if xs[i].0.StrKey? then xs[i].0 else IntKey(IntKeyCount(xs[..i]))
  }

  /** One step of `array_merge` after a prefix merged in place: the entry is
      appended, under its own string key or the next integer index. */
  lemma MergeStepAppends(p: Entries, acc: Entries, x: (Key, Value))
    requires |acc| == |p| && forall i :: 0 <= i < |p| ==> MergedAt(p, acc, i)
    requires x.0.StrKey? ==> forall i :: 0 <= i < |p| ==> p[i].0 != x.0
    ensures MergeStep(acc, x) == acc + [(if x.0.StrKey? then x.0 else IntKey(IntKeyCount(p)), x.1)]
  {
    if x.0.StrKey? {
      forall i | 0 <= i < |acc|
        ensures acc[i].0 != x.0
      {
        assert MergedAt(p, acc, i);
      }
      assert Get(acc, x.0).None?;
    } else {
      forall i | 0 <= i < |acc|
        ensures acc[i].0.IntKey? == p[i].0.IntKey?
      {
        assert MergedAt(p, acc, i);
      }
      IntKeyCountSameKinds(acc, p);
    }
  }

  /** The inductive step of `MergeAllShape`: merging one more entry after a
      prefix merged in place keeps the whole array in place. */
  lemma MergeShapeStep(p: Entries, x: (Key, Value))
    requires DistinctStrKeys(p + [x])
    requires |MergeAll(p)| == |p| && forall i :: 0 <= i < |p| ==> MergedAt(p, MergeAll(p), i)
    ensures |MergeAll(p + [x])| == |p| + 1
    ensures forall i :: 0 <= i <= |p| ==> MergedAt(p + [x], MergeAll(p + [x]), i)
  {
    var xs := p + [x];
    var n := |p|;
    assert xs[..n] == p && xs[n] == x;
    var acc := MergeAll(p);
    assert x.0.StrKey? ==> forall i :: 0 <= i < |p| ==> p[i].0 != x.0 by {
      if x.0.StrKey? {
        forall i | 0 <= i < |p|
          ensures p[i].0 != x.0
        {
          assert p[i] == xs[i];
        }
      }
    }
    MergeStepAppends(p, acc, x);
    var e := (if x.0.StrKey? then x.0 else IntKey(IntKeyCount(p)), x.1);
    var r := MergeAll(xs);
    assert r == MergeStep(acc, x) == acc + [e];
    forall i | 0 <= i <= n
      ensures MergedAt(xs, r, i)
    {
      if i < n {
        assert MergedAt(p, acc, i);
        assert r[i] == acc[i];
        assert p[i] == xs[i] && p[..i] == xs[..i];
      } else {
        assert r[i] == e && xs[..i] == p;
      }
    }
  }

  /** When no string key repeats, `array_merge` keeps every entry in place:
      string keys unchanged and integer keys renumbered 0, 1, 2, … in order. */
  lemma {:induction false} MergeAllShape(xs: Entries)
    requires DistinctStrKeys(xs)
    ensures |MergeAll(xs)| == |xs|
    ensures forall i :: 0 <= i < |xs| ==> MergedAt(xs, MergeAll(xs), i)
  {
    if xs != [] {
      var p := xs[..|xs| - 1];
      assert DistinctStrKeys(p);
      MergeAllShape(p);
      assert xs == p + [xs[|xs| - 1]];
      MergeShapeStep(p, xs[|xs| - 1]);
    }
  }

  /** An array whose keys are all integers has as many integer keys as entries. */
  lemma {:induction false} IntKeyCountAllInt(a: Entries)
    requires forall i :: 0 <= i < |a| ==> a[i].0.IntKey?
    ensures IntKeyCount(a) == |a|
  {
    if a != [] {
      IntKeyCountAllInt(a[..|a| - 1]);
    }
  }

  /** Appending a list to an array: the values follow those of the array, the
      string keys of the array stay where they were, and when the array is
      itself a list the result is the array followed by the new values. */
  lemma AppendListShape(a: Entries, vs: seq<Value>)
    requires DistinctKeys(a)
    ensures ValuesOf(ArrayMerge(a, ListEntries(vs))) == ValuesOf(a) + vs
    ensures forall i :: 0 <= i < |a| && a[i].0.StrKey? ==> ArrayMerge(a, ListEntries(vs))[i] == a[i]
    ensures a == ListEntries(ValuesOf(a)) ==> ArrayMerge(a, ListEntries(vs)) == ListEntries(ValuesOf(a) + vs)
  {
    var xs := a + ListEntries(vs);
    forall i, j | 0 <= i < j < |xs| && xs[i].0.StrKey?
      ensures xs[i].0 != xs[j].0
    {
      if j >= |a| {
        assert xs[j] == ListEntries(vs)[j - |a|];
      }
    }
    MergeAllShape(xs);
    var r := ArrayMerge(a, ListEntries(vs));
    AppendValues(a, vs, r);
    if a == ListEntries(ValuesOf(a)) {
      AppendToList(xs, r);
    }
  }

  lemma AppendValues(a: Entries, vs: seq<Value>, r: Entries)
    requires |r| == |a + ListEntries(vs)|
    requires forall i :: 0 <= i < |r| ==> MergedAt(a + ListEntries(vs), r, i)
    ensures ValuesOf(r) == ValuesOf(a) + vs
    ensures forall i :: 0 <= i < |a| && a[i].0.StrKey? ==> r[i] == a[i]
  {
    var xs := a + ListEntries(vs);
    forall i | 0 <= i < |xs|
      ensures r[i].1 == xs[i].1 && (xs[i].0.StrKey? ==> r[i] == xs[i])
    {
      assert MergedAt(xs, r, i);
    }
    assert ValuesOf(r) == ValuesOf(a) + vs;
  }

  lemma AppendToList(xs: Entries, r: Entries)
    requires |r| == |xs| && forall i :: 0 <= i < |xs| ==> xs[i].0.IntKey?
    requires forall i :: 0 <= i < |r| ==> MergedAt(xs, r, i)
    ensures r == ListEntries(ValuesOf(xs))
  {
    forall i | 0 <= i < |r|
      ensures r[i] == ListEntries(ValuesOf(xs))[i]
    {
      assert MergedAt(xs, r, i);
      IntKeyCountAllInt(xs[..i]);
    }
  }
}
