/**
 * The orders in which the store hands records back: `getAll` enumerates an
 * object store in ascending key order, and `getFileChunks` sorts with the
 * comparator `a.chunkIndex - b.chunkIndex` (a stable sort).
 */
module Listing {
  import opened Records

  /** A smallest element of a non-empty set, found by removing one element at a time. */
  ghost function MinOf(ks: set<nat>): (m: nat)
    requires ks != {}
    ensures m in ks && forall k :: k in ks ==> m <= k
    decreases ks
  {
    var x :| x in ks;
    if ks == {x} then x
    else
      var y := MinOf(ks - {x});
      assert forall k :: k in ks ==> k == x || k in ks - {x};
      if x <= y then x else y
  }

  /** The smallest key of a non-empty set. */
  function Least(ks: set<nat>): (m: nat)
    requires ks != {}
    ensures m in ks && forall k :: k in ks ==> m <= k
  {
    assert MinOf(ks) in ks && forall k :: k in ks ==> MinOf(ks) <= k;
    var m :| m in ks && forall k :: k in ks ==> m <= k;
    m
  }

  /** The keys in ascending order, each once. */
  function SortedKeys(ks: set<nat>): (r: seq<nat>)
    ensures |r| == |ks|
    ensures forall i, j :: 0 <= i < j < |r| ==> r[i] < r[j]
    ensures forall k :: k in r <==> k in ks
    decreases ks
  {
    if ks == {} then []
    else
      var m := Least(ks);
      var tail := SortedKeys(ks - {m});
      assert forall k :: k in tail ==> m < k;
      [m] + tail
  }

  /** `getAll` on an object store: every record with its key, in ascending key order. */
  function Rows<T>(m: map<nat, T>): (r: seq<Keyed<T>>)
    ensures forall i, j :: 0 <= i < j < |r| ==> r[i].id < r[j].id
    ensures forall i :: 0 <= i < |r| ==> r[i].id in m && m[r[i].id] == r[i].val
    ensures forall id :: id in m <==> HasKey(r, id)
    ensures |r| == |m|
  {
    var ks := SortedKeys(m.Keys);
    var r := Lookup(ks, m);
    LookupAll(m, ks, r);
    r
  }

  /** Looking up every key of `m`, in ascending order, lists `m` in ascending key order. */
  lemma LookupAll<T>(m: map<nat, T>, ks: seq<nat>, r: seq<Keyed<T>>)
    requires |ks| == |m|
    requires forall i, j :: 0 <= i < j < |ks| ==> ks[i] < ks[j]
    requires forall k :: k in ks <==> k in m
    requires |r| == |ks| && forall i :: 0 <= i < |r| ==> r[i] == Keyed(ks[i], m[ks[i]])
    ensures |r| == |m|
    ensures forall i, j :: 0 <= i < j < |r| ==> r[i].id < r[j].id
    ensures forall i :: 0 <= i < |r| ==> r[i].id in m && m[r[i].id] == r[i].val
    ensures forall id :: id in m <==> HasKey(r, id)
  {
    forall id | id in m
      ensures HasKey(r, id)
    {
      var i :| 0 <= i < |ks| && ks[i] == id;
      assert r[i].id == id;
    }
  }

  /** The records under the keys `ks`, in that order. */
  function Lookup<T>(ks: seq<nat>, m: map<nat, T>): (r: seq<Keyed<T>>)
    requires forall k :: k in ks ==> k in m
    ensures |r| == |ks|
    ensures forall i :: 0 <= i < |r| ==> r[i] == Keyed(ks[i], m[ks[i]])
  {
    if |ks| == 0 then [] else [Keyed(ks[0], m[ks[0]])] + Lookup(ks[1..], m)
  }

  /** Some row of `rows` has key `id`. */
  predicate HasKey<T>(rows: seq<Keyed<T>>, id: nat)
  {
    exists i :: 0 <= i < |rows| && rows[i].id == id
  }

  lemma HasKeyStep<T>(rows: seq<Keyed<T>>)
    requires |rows| > 0
    ensures forall id :: HasKey(rows, id) <==> id == rows[0].id || HasKey(rows[1..], id)
  {
    forall id
      ensures HasKey(rows, id) <==> id == rows[0].id || HasKey(rows[1..], id)
    {
      if HasKey(rows, id) && id != rows[0].id {
        var i :| 0 <= i < |rows| && rows[i].id == id;
        assert rows[1..][i - 1].id == id;
      }
      if HasKey(rows[1..], id) {
        var i :| 0 <= i < |rows| - 1 && rows[1..][i].id == id;
        assert rows[i + 1].id == id;
      }
    }
  }

  /** The rows are exactly the map's entries, each once, and their keys are the map's keys. */
  lemma RowsMembers<T>(m: map<nat, T>)
    ensures forall x :: x in Rows(m) <==> x.id in m && m[x.id] == x.val
    ensures forall id :: id in m <==> HasKey(Rows(m), id)
    ensures Distinct(Rows(m))
  {
    var rows := Rows(m);
    RowsEntries(m, rows);
  }

  lemma RowsEntries<T>(m: map<nat, T>, rows: seq<Keyed<T>>)
    requires forall i :: 0 <= i < |rows| ==> rows[i].id in m && m[rows[i].id] == rows[i].val
    requires forall id :: id in m ==> HasKey(rows, id)
    ensures forall x :: x in rows <==> x.id in m && m[x.id] == x.val
  {
    forall x: Keyed<T> | x.id in m && m[x.id] == x.val
      ensures x in rows
    {
      var i :| 0 <= i < |rows| && rows[i].id == x.id;
      assert rows[i] == x;
    }
    forall x | x in rows
      ensures x.id in m && m[x.id] == x.val
    {
      var i :| 0 <= i < |rows| && rows[i] == x;
    }
  }

  /** The rows that belong to file `f`, in their original order. */
  function OfFile(rows: seq<Keyed<Chunk>>, f: nat): (r: seq<Keyed<Chunk>>)
    ensures forall x :: x in r <==> x in rows && x.val.fileId == f
    ensures |r| <= |rows|
    ensures multiset(r) <= multiset(rows)
  {
    if |rows| == 0 then []
    else
      var tail := OfFile(rows[1..], f);
      assert rows == [rows[0]] + rows[1..];
      if rows[0].val.fileId == f then [rows[0]] + tail else tail
  }

  predicate SortedByIndex(s: seq<Keyed<Chunk>>)
  {
    forall i, j :: 0 <= i < j < |s| ==> s[i].val.chunkIndex <= s[j].val.chunkIndex
  }

  predicate Distinct<T(==)>(s: seq<T>)
  {
    forall i, j :: 0 <= i < j < |s| ==> s[i] != s[j]
  }

  /** Puts `x` before the first element whose index is not smaller, keeping equal keys in order. */
  function InsertByIndex(x: Keyed<Chunk>, s: seq<Keyed<Chunk>>): (r: seq<Keyed<Chunk>>)
    requires SortedByIndex(s)
    ensures SortedByIndex(r)
    ensures multiset(r) == multiset(s) + multiset{x}
  {
    if |s| == 0 then [x]
    else if x.val.chunkIndex <= s[0].val.chunkIndex then [x] + s
    else
      var tail := InsertByIndex(x, s[1..]);
      assert s == [s[0]] + s[1..];
      InsertKeepsLowerBound(x, s[1..], tail, s[0].val.chunkIndex);
      [s[0]] + tail
  }

  lemma InsertKeepsLowerBound(x: Keyed<Chunk>, s: seq<Keyed<Chunk>>, r: seq<Keyed<Chunk>>, low: nat)
    requires multiset(r) == multiset(s) + multiset{x}
    requires low <= x.val.chunkIndex
    requires forall k :: 0 <= k < |s| ==> low <= s[k].val.chunkIndex
    ensures forall k :: 0 <= k < |r| ==> low <= r[k].val.chunkIndex
  {
    forall k | 0 <= k < |r|
      ensures low <= r[k].val.chunkIndex
    {
      assert r[k] in multiset(r);
      if r[k] != x {
        assert r[k] in multiset(s);
      }
    }
  }

  /** Insertion sort by `chunkIndex`: a sorted permutation of the input. */
  function SortByIndex(s: seq<Keyed<Chunk>>): (r: seq<Keyed<Chunk>>)
    ensures SortedByIndex(r)
    ensures multiset(r) == multiset(s)
  {
    if |s| == 0 then []
    else
      assert s == [s[0]] + s[1..];
      InsertByIndex(s[0], SortByIndex(s[1..]))
  }

  /** A rearrangement, such as the sort, keeps the elements and introduces no repetitions. */
  lemma PermutationMembers(s: seq<Keyed<Chunk>>, r: seq<Keyed<Chunk>>)
    requires multiset(r) == multiset(s)
    ensures forall x :: x in r <==> x in s
    ensures Distinct(s) ==> Distinct(r)
  {
    SameMembers(s, r);
    if Distinct(s) {
      DistinctSubMultiset(s, r);
    }
  }

  /** Filtering introduces no repetitions. */
  lemma OfFileDistinct(rows: seq<Keyed<Chunk>>, f: nat)
    requires Distinct(rows)
    ensures Distinct(OfFile(rows, f))
  {
    DistinctSubMultiset(rows, OfFile(rows, f));
  }

  lemma SameMembers<T>(a: seq<T>, b: seq<T>)
    requires multiset(a) == multiset(b)
    ensures forall x :: x in a <==> x in b
  {
    forall x
      ensures x in a <==> x in b
    {
      assert x in a <==> x in multiset(a);
      assert x in b <==> x in multiset(b);
    }
  }

  lemma {:induction false} DistinctAtMostOnce<T>(s: seq<T>, x: T)
    requires Distinct(s)
    ensures multiset(s)[x] <= 1
  {
    if |s| > 0 {
      assert s == [s[0]] + s[1..];
      DistinctAtMostOnce(s[1..], x);
      if s[0] == x {
        assert x !in s[1..];
      }
    }
  }

  /** A rearrangement of part of a sequence without repetitions has none either. */
  lemma DistinctSubMultiset<T>(a: seq<T>, b: seq<T>)
    requires multiset(b) <= multiset(a) && Distinct(a)
    ensures Distinct(b)
  {
    forall i, j | 0 <= i < j < |b|
      ensures b[i] != b[j]
    {
      if b[i] == b[j] {
        var x := b[i];
        assert b == b[..i] + [b[i]] + b[i + 1..j] + [b[j]] + b[j + 1..];
        assert multiset(b)[x] >= 2;
        DistinctAtMostOnce(a, x);
        assert false;
      }
    }
  }

  predicate StrictByIndex(s: seq<Keyed<Chunk>>)
  {
    forall i, j :: 0 <= i < j < |s| ==> s[i].val.chunkIndex < s[j].val.chunkIndex
  }

  lemma TailMembers(a: seq<Keyed<Chunk>>, x: Keyed<Chunk>)
    requires StrictByIndex(a) && |a| > 0
    ensures x in a[1..] <==> x in a && x != a[0]
  {
    if x in a[1..] {
      var k :| 0 <= k < |a| - 1 && a[1..][k] == x;
      assert a[k + 1] == x;
    }
    if x in a && x != a[0] {
      var k :| 0 <= k < |a| && a[k] == x;
      assert a[1..][k - 1] == x;
    }
  }

  lemma SameEmptiness<T>(a: seq<T>, b: seq<T>)
    requires forall x :: x in a <==> x in b
    ensures |a| == 0 <==> |b| == 0
  {
    if |a| > 0 {
      assert a[0] in b;
    }
    if |b| > 0 {
      assert b[0] in a;
    }
  }

  /**
   * A list strictly increasing by chunk index is determined by its elements:
   * however the records were inserted, the sorted listing is the same.
   */
  lemma {:induction false} StrictlySortedUnique(a: seq<Keyed<Chunk>>, b: seq<Keyed<Chunk>>)
    requires StrictByIndex(a) && StrictByIndex(b)
    requires forall x :: x in a <==> x in b
    ensures a == b
    decreases |a|
  {
    SameEmptiness(a, b);
    if |a| > 0 && |b| > 0 {
      assert a[0] in b && b[0] in a;
      var i :| 0 <= i < |b| && b[i] == a[0];
      var j :| 0 <= j < |a| && a[j] == b[0];
      assert j == 0;
      forall x
        ensures x in a[1..] <==> x in b[1..]
      {
        TailMembers(a, x);
        TailMembers(b, x);
      }
      StrictlySortedUnique(a[1..], b[1..]);
      assert a == [a[0]] + a[1..];
      assert b == [b[0]] + b[1..];
    }
  }

  /** Some element of `r` has chunk index `v`. */
  predicate HasIndex(r: seq<Keyed<Chunk>>, v: nat)
  {
    exists i :: 0 <= i < |r| && r[i].val.chunkIndex == v
  }

  /**
   * Strictly increasing indices that include every value of `0..n-1` and none
   * outside it are exactly `0, 1, ..., n-1`.
   */
  lemma {:induction false} ContiguousIndices(r: seq<Keyed<Chunk>>, n: nat)
    requires StrictByIndex(r)
    requires forall i :: 0 <= i < |r| ==> r[i].val.chunkIndex < n
    requires forall v: nat :: v < n ==> HasIndex(r, v)
    ensures |r| == n
    ensures forall i :: 0 <= i < |r| ==> r[i].val.chunkIndex == i
  {
    forall i | 0 <= i < |r|
      ensures r[i].val.chunkIndex == i
    {
      AtPosition(r, n, i);
    }
    if n > 0 {
      assert HasIndex(r, n - 1);
      var p :| 0 <= p < |r| && r[p].val.chunkIndex == n - 1;
      assert p == n - 1;
    }
    if |r| > 0 {
      assert r[|r| - 1].val.chunkIndex == |r| - 1;
    }
  }

  lemma {:induction false} AtPosition(r: seq<Keyed<Chunk>>, n: nat, i: nat)
    requires StrictByIndex(r)
    requires forall i :: 0 <= i < |r| ==> r[i].val.chunkIndex < n
    requires forall v: nat :: v < n ==> HasIndex(r, v)
    requires i < |r|
    ensures r[i].val.chunkIndex == i
    decreases i
  {
    if i > 0 {
      AtPosition(r, n, i - 1);
    }
    if r[i].val.chunkIndex != i {
      assert r[i].val.chunkIndex > i;
      assert HasIndex(r, i);
      var p :| 0 <= p < |r| && r[p].val.chunkIndex == i;
      if p < i {
        AtPosition(r, n, p);
      }
      assert false;
    }
  }
}
