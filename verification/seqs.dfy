/**
 * Sequence vocabulary shared by the components: duplicate-freedom,
 * occurrence counts, order-preserving subsequences, first-occurrence
 * de-duplication (what `[...new Set(xs)]` computes) and removal of every
 * occurrence of a value (what `xs.filter(y => y !== x)` computes).
 * Definitions recurse on the last element so that they line up with
 * left-to-right loops over prefixes.
 */
module Seqs {

  /** No value occurs twice in `s`. */
  predicate NoDup<T(==)>(s: seq<T>) {
    forall i, j :: 0 <= i < j < |s| ==> s[i] != s[j]
  }

  /** The number of occurrences of `x` in `s`. */
  function Count<T(==)>(s: seq<T>, x: T): nat {
    if |s| == 0 then 0 else Count(s[..|s| - 1], x) + (if s[|s| - 1] == x then 1 else 0)
  }

  /** `a` is `b` with some elements deleted: an order-preserving subsequence. */
  predicate Subseq<T(==)>(a: seq<T>, b: seq<T>)
    decreases |b|
  {
    || |a| == 0
    || (&& |b| > 0
        && (|| (a[|a| - 1] == b[|b| - 1] && Subseq(a[..|a| - 1], b[..|b| - 1]))
            || Subseq(a, b[..|b| - 1])))
  }

  /**
   * The distinct values of `s`, each at the position of its first
   * occurrence: insertion into a JavaScript `Set`, read back in iteration
   * order.
   */
  function Dedup<T(==,!new)>(s: seq<T>): seq<T>
    decreases |s|
  {
    if |s| == 0 then []
    else
      var d := Dedup(s[..|s| - 1]);
      if s[|s| - 1] in d then d else d + [s[|s| - 1]]
  }

  /**
   * De-duplication keeps exactly the values of `s`, each once, as an
   * order-preserving subsequence of `s`. `DedupOrder` fixes which
   * occurrence each value keeps.
   */
  lemma {:induction false} DedupSpec<T(!new)>(s: seq<T>)
    ensures NoDup(Dedup(s))
    ensures forall x :: x in Dedup(s) <==> x in s
    ensures Subseq(Dedup(s), s)
    decreases |s|
  {
    if |s| > 0 {
      var p, x := s[..|s| - 1], s[|s| - 1];
      DedupSpec(p);
      var d := Dedup(p);
      assert s == p + [x];
      if x !in d {
        assert (d + [x])[..|d|] == d;
      }
    }
  }

  /**
   * The values of `d` come in the order of their first occurrences in `s`:
   * wherever a later value of `d` occurs in `s`, every earlier value of `d`
   * has already occurred.
   */
  predicate FirstOccurrenceOrder<T(==)>(d: seq<T>, s: seq<T>) {
    forall i, j, k :: 0 <= i < j < |d| && 0 <= k < |s| && s[k] == d[j] ==> d[i] in s[..k]
  }

  /** Appending a value that already occurs keeps the order of `d`. */
  lemma OrderAppendKnown<T>(d: seq<T>, p: seq<T>, x: T)
    requires FirstOccurrenceOrder(d, p) && x in p
    ensures FirstOccurrenceOrder(d, p + [x])
  {
    var s := p + [x];
    forall i, j, k | 0 <= i < j < |d| && 0 <= k < |s| && s[k] == d[j]
      ensures d[i] in s[..k]
    {
      var k' := k;
      if k == |p| {
        k' :| 0 <= k' < |p| && p[k'] == x;
      }
      assert p[k'] == d[j];
      var m :| 0 <= m < k' && p[..k'][m] == d[i];
      assert s[..k][m] == d[i];
    }
  }

  /** Appending a new value to `p` and to `d` keeps the order. */
  lemma OrderAppendNew<T>(d: seq<T>, p: seq<T>, x: T)
    requires FirstOccurrenceOrder(d, p) && x !in p
    requires forall y :: y in d ==> y in p
    ensures FirstOccurrenceOrder(d + [x], p + [x])
  {
    var s, e := p + [x], d + [x];
    forall i, j, k | 0 <= i < j < |e| && 0 <= k < |s| && s[k] == e[j]
      ensures e[i] in s[..k]
    {
      assert e[i] == d[i] && d[i] in d;
      if j < |d| {
        assert e[j] == d[j] && d[j] in d;
        assert k < |p| && p[k] == d[j];
        var m :| 0 <= m < k && p[..k][m] == d[i];
        assert s[..k][m] == d[i];
      } else {
        assert s[..k] == p;
      }
    }
  }

  /** The values of `Dedup(s)` come in the order of their first occurrences in `s`. */
  lemma {:induction false} DedupOrder<T(!new)>(s: seq<T>)
    ensures FirstOccurrenceOrder(Dedup(s), s)
    decreases |s|
  {
    if |s| > 0 {
      var p, x := s[..|s| - 1], s[|s| - 1];
      DedupOrder(p);
      DedupAppend(p, x);
      if x in p {
        OrderAppendKnown(Dedup(p), p, x);
      } else {
        DedupSpec(p);
        OrderAppendNew(Dedup(p), p, x);
      }
      assert s == p + [x];
    }
  }

  /** `s` without any occurrence of `x`; everything else keeps its order. */
  function RemoveAll<T(==,!new)>(s: seq<T>, x: T): (r: seq<T>)
    ensures x !in r
    ensures Subseq(r, s)
    ensures forall y :: y != x ==> Count(r, y) == Count(s, y)
    ensures |r| == |s| - Count(s, x)
    decreases |s|
  {
    if |s| == 0 then []
    else
      var rest := RemoveAll(s[..|s| - 1], x);
      if s[|s| - 1] == x then rest else rest + [s[|s| - 1]]
  }

  /** Appending one element: the count grows exactly for that element. */
  lemma CountAppend<T>(s: seq<T>, y: T, x: T)
    ensures Count(s + [y], x) == Count(s, x) + (if y == x then 1 else 0)
  {
    assert (s + [y])[..|s|] == s;
  }

  /** `x` occurs in `s` exactly when its count is positive. */
  lemma {:induction false} CountPositiveIff<T>(s: seq<T>, x: T)
    ensures Count(s, x) > 0 <==> x in s
    decreases |s|
  {
    if |s| > 0 {
      var p := s[..|s| - 1];
      CountPositiveIff(p, x);
      assert s == p + [s[|s| - 1]];
    }
  }

  /** In a duplicate-free sequence every present value occurs exactly once. */
  lemma {:induction false} NoDupCountOne<T>(s: seq<T>, x: T)
    requires NoDup(s) && x in s
    ensures Count(s, x) == 1
    decreases |s|
  {
    var p := s[..|s| - 1];
    assert s == p + [s[|s| - 1]];
    if s[|s| - 1] == x {
      CountPositiveIff(p, x);
    } else {
      NoDupCountOne(p, x);
    }
  }

  /** De-duplicating a duplicate-free sequence changes nothing. */
  lemma {:induction false} DedupOfNoDup<T(!new)>(s: seq<T>)
    requires NoDup(s)
    ensures Dedup(s) == s
    decreases |s|
  {
    if |s| > 0 {
      var p := s[..|s| - 1];
      DedupOfNoDup(p);
      assert s == p + [s[|s| - 1]];
    }
  }

  /** Removing an absent value changes nothing. */
  lemma {:induction false} RemoveAllAbsent<T(!new)>(s: seq<T>, x: T)
    requires x !in s
    ensures RemoveAll(s, x) == s
    decreases |s|
  {
    if |s| > 0 {
      var p := s[..|s| - 1];
      RemoveAllAbsent(p, x);
      assert s == p + [s[|s| - 1]];
    }
  }

  /** Every element of a subsequence is an element of the whole. */
  lemma {:induction false} SubseqIn<T>(a: seq<T>, b: seq<T>, x: T)
    requires Subseq(a, b) && x in a
    ensures x in b
    decreases |b|
  {
    var b' := b[..|b| - 1];
    if a[|a| - 1] == b[|b| - 1] && Subseq(a[..|a| - 1], b') {
      if x != a[|a| - 1] {
        assert a == a[..|a| - 1] + [a[|a| - 1]];
        SubseqIn(a[..|a| - 1], b', x);
      }
    } else {
      SubseqIn(a, b', x);
    }
  }

  /** A subsequence of a duplicate-free sequence is duplicate-free. */
  lemma {:induction false} SubseqNoDup<T>(a: seq<T>, b: seq<T>)
    requires Subseq(a, b) && NoDup(b)
    ensures NoDup(a)
    decreases |b|
  {
    if |a| > 0 {
      var a', b' := a[..|a| - 1], b[..|b| - 1];
      if a[|a| - 1] == b[|b| - 1] && Subseq(a', b') {
        SubseqNoDup(a', b');
        if a[|a| - 1] in a' {
          SubseqIn(a', b', a[|a| - 1]);
        }
        assert a == a' + [a[|a| - 1]];
      } else {
        SubseqNoDup(a, b');
      }
    }
  }

  /** De-duplicating one more element appends it exactly when it is new. */
  lemma DedupAppend<T(!new)>(s: seq<T>, x: T)
    ensures Dedup(s + [x]) == if x in s then Dedup(s) else Dedup(s) + [x]
  {
    DedupSpec(s);
    assert (s + [x])[..|s|] == s;
  }

  /** Deleting one position keeps a duplicate-free sequence duplicate-free. */
  lemma NoDupRemoveAt<T>(s: seq<T>, k: int)
    requires NoDup(s) && 0 <= k < |s|
    ensures NoDup(s[..k] + s[k + 1..])
  {
    var r := s[..k] + s[k + 1..];
    forall i, j | 0 <= i < j < |r|
      ensures r[i] != r[j]
    {
      var i' := if i < k then i else i + 1;
      var j' := if j < k then j else j + 1;
      assert r[i] == s[i'] && r[j] == s[j'];
    }
  }

  /** Appending a new value keeps a duplicate-free sequence duplicate-free. */
  lemma NoDupAppend<T>(s: seq<T>, x: T)
    requires NoDup(s) && x !in s
    ensures NoDup(s + [x])
  {
  }

  /** The counts in `s` of the values listed in `keys`, added up. */
  function SumCounts<T(==)>(keys: seq<T>, s: seq<T>): nat
    decreases |keys|
  {
    if |keys| == 0 then 0 else SumCounts(keys[..|keys| - 1], s) + Count(s, keys[|keys| - 1])
  }

  /** Appending `y` to `s` adds one for every time `y` is listed among the keys. */
  lemma {:induction false} SumCountsAppend<T>(keys: seq<T>, s: seq<T>, y: T)
    ensures SumCounts(keys, s + [y]) == SumCounts(keys, s) + Count(keys, y)
    decreases |keys|
  {
    if |keys| > 0 {
      SumCountsAppend(keys[..|keys| - 1], s, y);
      CountAppend(s, y, keys[|keys| - 1]);
    }
  }

  /** Tallying every distinct value of `s` accounts for each element of `s` exactly once. */
  lemma {:induction false} DedupCountsSumToLength<T(!new)>(s: seq<T>)
    ensures SumCounts(Dedup(s), s) == |s|
    decreases |s|
  {
    if |s| > 0 {
      var p, x := s[..|s| - 1], s[|s| - 1];
      assert s == p + [x];
      DedupCountsSumToLength(p);
      DedupSpec(p);
      var d := Dedup(p);
      SumCountsAppend(d, p, x);
      if x in d {
        NoDupCountOne(d, x);
      } else {
        CountPositiveIff(d, x);
        CountPositiveIff(p, x);
        CountAppend(p, x, x);
        assert (d + [x])[..|d|] == d;
      }
    }
  }

  /** `x` occurs at least twice exactly when two distinct positions hold it. */
  lemma {:induction false} CountAtLeastTwoIff<T>(s: seq<T>, x: T)
    ensures Count(s, x) >= 2 <==> exists i, j :: 0 <= i < j < |s| && s[i] == x && s[j] == x
    decreases |s|
  {
    if |s| > 0 {
      var p := s[..|s| - 1];
      CountAtLeastTwoIff(p, x);
      CountPositiveIff(p, x);
      if Count(s, x) >= 2 {
        if Count(p, x) >= 2 {
          var i, j :| 0 <= i < j < |p| && p[i] == x && p[j] == x;
          assert s[i] == x && s[j] == x;
        } else {
          var i :| 0 <= i < |p| && p[i] == x;
          assert s[i] == x && s[|s| - 1] == x;
        }
      }
      if exists i, j :: 0 <= i < j < |s| && s[i] == x && s[j] == x {
        var i, j :| 0 <= i < j < |s| && s[i] == x && s[j] == x;
        if j < |s| - 1 {
          assert p[i] == x && p[j] == x;
        } else {
          assert p[i] == x;
        }
      }
    }
  }
}
