/** Sequence helpers: keep-first duplicate removal (Python's `set(...)`
    read back as a list, and pandas' `drop_duplicates()`), removal of one
    element (`list.remove`), filtering and flattening. */
module Seqs {

  predicate Distinct<T(==)>(s: seq<T>) {
    forall i, j :: 0 <= i < j < |s| ==> s[i] != s[j]
  }

  /** Position of the first occurrence of `x` in `s`. */
  function FirstIndex<T(==)>(s: seq<T>, x: T): (i: nat)
    requires x in s
    ensures i < |s| && s[i] == x && x !in s[..i]
  {
    if s[0] == x then 0
    else
      var k := FirstIndex(s[1..], x);
      assert s[1..][..k] == s[1..k + 1];
      1 + k
  }

  /** Keep the first occurrence of every element, in order. */
  function Dedup<T(==)>(s: seq<T>): (r: seq<T>)
    ensures Distinct(r)
    ensures forall i :: 0 <= i < |r| ==> r[i] in s
    ensures forall i :: 0 <= i < |s| ==> s[i] in r
    ensures |r| <= |s|
    decreases |s|
  {
    if |s| == 0 then []
    else
      var prefix := Dedup(s[..|s| - 1]);
      var last := s[|s| - 1];
      assert forall i :: 0 <= i < |s| - 1 ==> s[i] == s[..|s| - 1][i];
      if last in prefix then prefix else prefix + [last]
  }

  lemma {:induction false} FirstIndexInPrefix<T>(s: seq<T>, n: nat, x: T)
    requires n <= |s| && x in s[..n]
    ensures FirstIndex(s, x) == FirstIndex(s[..n], x)
  {
    var i := FirstIndex(s, x);
    var j := FirstIndex(s[..n], x);
    assert s[..n][j] == s[j];
    assert forall k :: 0 <= k < i ==> s[k] != x by {
      forall k | 0 <= k < i ensures s[k] != x { assert s[..i][k] == s[k]; }
    }
    assert forall k :: 0 <= k < j ==> s[k] != x by {
      forall k | 0 <= k < j ensures s[k] != x { assert s[..n][..j][k] == s[k]; }
    }
  }

  /** The kept elements appear in the order of their first occurrences. */
  lemma {:induction false} DedupOrder<T>(s: seq<T>)
    ensures forall i, j :: 0 <= i < j < |Dedup(s)| ==>
      FirstIndex(s, Dedup(s)[i]) < FirstIndex(s, Dedup(s)[j])
    decreases |s|
  {
    if |s| > 0 {
      var p := s[..|s| - 1];
      var prefix := Dedup(p);
      var r := Dedup(s);
      DedupOrder(p);
      DedupLast(s, p, prefix, r);
      forall i, j | 0 <= i < j < |r|
        ensures FirstIndex(s, r[i]) < FirstIndex(s, r[j])
      {
        DedupOrderPair(s, p, prefix, r, i, j);
      }
    }
  }

  /** Two kept elements keep the order they had before the last element:
      `r` extends `prefix`, drawn from `p`, by at most the last element of `s`. */
  lemma {:induction false} DedupOrderPair<T>(s: seq<T>, p: seq<T>, prefix: seq<T>, r: seq<T>, i: nat, j: nat)
    requires |s| > 0 && p == s[..|s| - 1]
    requires |prefix| <= |r| <= |prefix| + 1 && r[..|prefix|] == prefix
    requires |r| > |prefix| ==> r[|prefix|] == s[|s| - 1] && FirstIndex(s, s[|s| - 1]) == |s| - 1
    requires forall k :: 0 <= k < |prefix| ==> prefix[k] in p
    requires i < j < |r|
    requires j < |prefix| ==> FirstIndex(p, prefix[i]) < FirstIndex(p, prefix[j])
    ensures r[i] in s && r[j] in s && FirstIndex(s, r[i]) < FirstIndex(s, r[j])
  {
    var n := |s| - 1;
    assert r[i] == prefix[i];
    FirstIndexInPrefix(s, n, r[i]);
    if j < |prefix| {
      assert r[j] == prefix[j];
      FirstIndexInPrefix(s, n, r[j]);
    }
  }

  /** Deduplicating one more element keeps what was kept before and adds
      the new element, whose first occurrence is last, unless it was seen. */
  lemma {:induction false} DedupLast<T>(s: seq<T>, p: seq<T>, prefix: seq<T>, r: seq<T>)
    requires |s| > 0 && p == s[..|s| - 1] && prefix == Dedup(p) && r == Dedup(s)
    ensures |prefix| <= |r| <= |prefix| + 1
    ensures r[..|prefix|] == prefix
    ensures |r| > |prefix| ==> r[|prefix|] == s[|s| - 1] && FirstIndex(s, s[|s| - 1]) == |s| - 1
  {
    var n := |s| - 1;
    if s[n] !in p {
      var k := FirstIndex(s, s[n]);
      assert k == n by {
        assert forall m :: 0 <= m < n ==> p[m] == s[m];
      }
    }
  }

  /** Removing duplicates from a sequence that has none changes nothing. */
  lemma {:induction false} DedupDistinct<T>(s: seq<T>)
    requires Distinct(s)
    ensures Dedup(s) == s
    decreases |s|
  {
    if |s| > 0 {
      var p := s[..|s| - 1];
      DedupDistinct(p);
      assert s[|s| - 1] !in p;
      assert p + [s[|s| - 1]] == s;
    }
  }

  /** `list.remove(x)` after an `x in list` test: drop the first occurrence. */
  function RemoveFirst<T(==)>(s: seq<T>, x: T): seq<T>
  {
    if x in s then
      var k := FirstIndex(s, x);
      s[..k] + s[k + 1..]
    else s
  }

  /** Removing an element from a duplicate-free sequence leaves every other
      element, each once, and not the removed one. */
  lemma {:induction false} RemoveFromDistinct<T>(s: seq<T>, x: T)
    requires Distinct(s)
    ensures Distinct(RemoveFirst(s, x))
    ensures x !in RemoveFirst(s, x)
    ensures forall i :: 0 <= i < |s| && s[i] != x ==> s[i] in RemoveFirst(s, x)
    ensures forall i :: 0 <= i < |RemoveFirst(s, x)| ==> RemoveFirst(s, x)[i] in s
  {
    if x in s {
      var k := FirstIndex(s, x);
      var r := s[..k] + s[k + 1..];
      assert |r| == |s| - 1;
      assert forall i :: 0 <= i < k ==> r[i] == s[i];
      assert forall i :: k <= i < |r| ==> r[i] == s[i + 1];
      forall i | 0 <= i < |s| && s[i] != x
        ensures s[i] in r
      {
        if i < k { assert r[i] == s[i]; } else { assert r[i - 1] == s[i]; }
      }
    }
  }

  /** The elements of `s` that satisfy `keep`, in order. */
  function Filter<T>(s: seq<T>, keep: T -> bool): (r: seq<T>)
    ensures |r| <= |s|
    ensures forall i :: 0 <= i < |r| ==> r[i] in s && keep(r[i])
    ensures forall i :: 0 <= i < |s| && keep(s[i]) ==> s[i] in r
    decreases |s|
  {
    if |s| == 0 then []
    else
      var rest := Filter(s[..|s| - 1], keep);
      assert forall i :: 0 <= i < |s| - 1 ==> s[i] == s[..|s| - 1][i];
      if keep(s[|s| - 1]) then rest + [s[|s| - 1]] else rest
  }

  /** `f` applied to each element, in order. */
  function MapSeq<A, B>(s: seq<A>, f: A -> B): (r: seq<B>)
    ensures |r| == |s| && forall i :: 0 <= i < |s| ==> r[i] == f(s[i])
  {
    seq(|s|, i requires 0 <= i < |s| => f(s[i]))
  }

  lemma {:induction false} MapSeqAppend<A, B>(a: seq<A>, b: seq<A>, f: A -> B)
    ensures MapSeq(a + b, f) == MapSeq(a, f) + MapSeq(b, f)
  {
    var l := MapSeq(a + b, f);
    var r := MapSeq(a, f) + MapSeq(b, f);
    forall i | 0 <= i < |l| ensures l[i] == r[i] {
      if i < |a| {
        assert (a + b)[i] == a[i];
      } else {
        assert (a + b)[i] == b[i - |a|];
      }
    }
  }

  /** Concatenation of a sequence of sequences (`list.extend` in a loop). */
  function Flatten<T>(ss: seq<seq<T>>): seq<T>
  {
    if |ss| == 0 then [] else ss[0] + Flatten(ss[1..])
  }

  /** The head and tail of a concatenation with a nonempty left part. */
  lemma {:induction false} AppendHeadTail<T>(a: seq<T>, b: seq<T>)
    requires |a| > 0
    ensures (a + b)[0] == a[0] && (a + b)[1..] == a[1..] + b
  {
  }

  /** Cutting a concatenation inside its left part. */
  lemma {:induction false} AppendSlices<T>(a: seq<T>, b: seq<T>, n: nat)
    requires n <= |a|
    ensures (a + b)[..n] == a[..n] && (a + b)[n..] == a[n..] + b
  {
  }

  /** Concatenation is associative. */
  lemma {:induction false} AppendAssoc<T>(a: seq<T>, b: seq<T>, c: seq<T>)
    ensures a + (b + c) == (a + b) + c
  {
  }

  /** Flattening respects concatenation: nothing is reordered or merged. */
  lemma {:induction false} FlattenAppend<T>(a: seq<seq<T>>, b: seq<seq<T>>)
    ensures Flatten(a + b) == Flatten(a) + Flatten(b)
  {
    if |a| > 0 {
      assert (a + b)[1..] == a[1..] + b;
      FlattenAppend(a[1..], b);
    } else {
      assert a + b == b;
    }
  }

  /** An element is in a flattened sequence exactly when it is in one of its
      parts: nothing is lost and nothing is added. */
  lemma {:induction false} FlattenMember<T>(ss: seq<seq<T>>, x: T)
    ensures x in Flatten(ss) <==> exists i :: 0 <= i < |ss| && x in ss[i]
  {
    if |ss| > 0 {
      FlattenMember(ss[1..], x);
      if x in Flatten(ss) && x !in ss[0] {
        var i :| 0 <= i < |ss[1..]| && x in ss[1..][i];
        assert x in ss[i + 1];
      }
      if exists i :: 0 <= i < |ss| && x in ss[i] {
        var i :| 0 <= i < |ss| && x in ss[i];
        if i > 0 {
          assert x in ss[1..][i - 1];
        }
      }
    }
  }

  /** Appending an element keeps the deduplicated prefix and adds the
      element only when it is new. */
  lemma {:induction false} DedupSnoc<T>(s: seq<T>, x: T)
    ensures Dedup(s + [x]) == if x in s then Dedup(s) else Dedup(s) + [x]
  {
    assert (s + [x])[..|s|] == s;
    DedupMember(s, x);
  }

  /** One step of deduplicating a sequence from left to right: the next
      element is appended unless it was already kept. */
  lemma {:induction false} DedupStep<T>(t: seq<T>, i: nat, out: seq<T>)
    requires i < |t| && out == Dedup(t[..i])
    ensures (if t[i] in out then out else out + [t[i]]) == Dedup(t[..i + 1])
  {
    assert t[..i + 1] == t[..i] + [t[i]];
    DedupSnoc(t[..i], t[i]);
    DedupMember(t[..i], t[i]);
  }

  /** Deduplication keeps exactly the elements. */
  lemma {:induction false} DedupMember<T>(s: seq<T>, x: T)
    ensures x in Dedup(s) <==> x in s
  {
    if x in s {
      var i :| 0 <= i < |s| && s[i] == x;
    }
  }

  /** Filtering respects appending one element. */
  lemma {:induction false} FilterSnoc<T>(s: seq<T>, x: T, keep: T -> bool)
    ensures Filter(s + [x], keep) == Filter(s, keep) + (if keep(x) then [x] else [])
  {
    assert (s + [x])[..|s|] == s;
  }

  /** Filtering keeps exactly the elements that satisfy the test. */
  lemma {:induction false} FilterMember<T>(s: seq<T>, keep: T -> bool, x: T)
    ensures x in Filter(s, keep) <==> x in s && keep(x)
  {
    if x in s && keep(x) {
      var i :| 0 <= i < |s| && s[i] == x;
    }
  }
}
