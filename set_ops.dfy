/**
 * Order-preserving operations on arrays of ids (src/features/episodes/utils/set-ops.ts).
 *
 * JavaScript's `Array.prototype.filter` is modelled by `Filter`, and
 * `Array.from(new Set(xs))` (a Set remembers insertion order) by `Dedup`.
 */
module SetOps {

  // ---------------------------------------------------------------------------
  // Vocabulary
  // ---------------------------------------------------------------------------

  /** No element occurs twice. */
  predicate NoDups<T(==,!new)>(s: seq<T>) {
    forall i, j :: 0 <= i < j < |s| ==> s[i] != s[j]
  }

  /** `r` can be obtained from `s` by deleting elements (order is kept). */
  ghost predicate Subsequence<T>(r: seq<T>, s: seq<T>)
    decreases |s|
  {
    if r == [] then true
    else if s == [] then false
    else Subsequence(r, s[1..]) || (r[0] == s[0] && Subsequence(r[1..], s[1..]))
  }

  /** The position of the first occurrence of `x` in `s`. */
  function FirstIndex<T(==,!new)>(s: seq<T>, x: T): (i: nat)
    requires x in s
    ensures i < |s| && s[i] == x
  {
    if s[0] == x then 0 else 1 + FirstIndex(s[1..], x)
  }

  /** No occurrence of `x` comes before `FirstIndex(s, x)`. */
  lemma {:induction false} FirstIndexIsFirst<T(!new)>(s: seq<T>, x: T, k: nat)
    requires k < |s| && s[k] == x
    ensures FirstIndex(s, x) <= k
  {
    if s[0] != x {
      FirstIndexIsFirst(s[1..], x, k - 1);
    }
  }

  /** The elements of `r` appear in the order of their first occurrence in `s`. */
  ghost predicate OrderedByFirstOccurrence<T(!new)>(r: seq<T>, s: seq<T>) {
    forall i, j :: 0 <= i < j < |r| ==>
      r[i] in s && r[j] in s && FirstIndex(s, r[i]) < FirstIndex(s, r[j])
  }

  // ---------------------------------------------------------------------------
  // filter
  // ---------------------------------------------------------------------------

  /** `s.filter(p)`: the elements satisfying `p`, in their original order. */
  function Filter<T(!new)>(s: seq<T>, p: T -> bool): (r: seq<T>)
    ensures |r| <= |s|
    ensures forall i :: 0 <= i < |r| ==> p(r[i])
  {
    if s == [] then []
    else
      var rest := Filter(s[1..], p);
      if p(s[0]) then [s[0]] + rest else rest
  }

  /** A filter keeps every element satisfying `p` with its multiplicity, and nothing else. */
  lemma {:induction false} FilterCounts<T(!new)>(s: seq<T>, p: T -> bool)
    ensures forall x :: multiset(Filter(s, p))[x] == if p(x) then multiset(s)[x] else 0
  {
    if s != [] {
      FilterCounts(s[1..], p);
      assert s == [s[0]] + s[1..];
    }
  }

  lemma {:induction false} FilterIsSubsequence<T(!new)>(s: seq<T>, p: T -> bool)
    ensures Subsequence(Filter(s, p), s)
  {
    if s != [] {
      FilterIsSubsequence(s[1..], p);
      SubsequenceOfTail(Filter(s[1..], p), s);
    }
  }

  lemma {:induction false} SubsequenceOfTail<T(!new)>(r: seq<T>, s: seq<T>)
    requires s != [] && Subsequence(r, s[1..])
    ensures Subsequence(r, s) && Subsequence([s[0]] + r, s)
  {
    assert ([s[0]] + r)[1..] == r;
  }

  /** A filter whose predicate holds everywhere keeps the whole sequence. */
  lemma {:induction false} FilterKeepsAll<T(!new)>(s: seq<T>, p: T -> bool)
    requires forall i :: 0 <= i < |s| ==> p(s[i])
    ensures Filter(s, p) == s
  {
    if s != [] {
      FilterKeepsAll(s[1..], p);
      assert s == [s[0]] + s[1..];
    }
  }

  /** Every position goes to exactly one of two complementary filters. */
  lemma {:induction false} FilterComplement<T(!new)>(s: seq<T>, p: T -> bool, q: T -> bool)
    requires forall i :: 0 <= i < |s| ==> q(s[i]) == !p(s[i])
    ensures |Filter(s, p)| + |Filter(s, q)| == |s|
  {
    if s != [] {
      FilterComplement(s[1..], p, q);
      assert s == [s[0]] + s[1..];
      if p(s[0]) {
        assert Filter(s, p) == [s[0]] + Filter(s[1..], p);
        assert Filter(s, q) == Filter(s[1..], q);
      } else {
        assert Filter(s, p) == Filter(s[1..], p);
        assert Filter(s, q) == [s[0]] + Filter(s[1..], q);
      }
    }
  }

  /** Two complementary filters split the multiset of elements between them. */
  lemma FilterComplementElements<T(!new)>(s: seq<T>, p: T -> bool, q: T -> bool)
    requires forall i :: 0 <= i < |s| ==> q(s[i]) == !p(s[i])
    ensures multiset(Filter(s, p)) + multiset(Filter(s, q)) == multiset(s)
  {
    var fp, fq := Filter(s, p), Filter(s, q);
    FilterCounts(s, p);
    FilterCounts(s, q);
    forall x
      ensures (multiset(fp) + multiset(fq))[x] == multiset(s)[x]
    {
      if x in s {
        var i :| 0 <= i < |s| && s[i] == x;
        assert q(x) == !p(x);
      }
    }
  }

  // ---------------------------------------------------------------------------
  // Array.from(new Set(xs))
  // ---------------------------------------------------------------------------

  /**
   * Adding the elements of `s` one by one to a JavaScript Set and reading it
   * back: the first occurrence of every element, in order.
   */
  function Dedup<T(==,!new)>(s: seq<T>): (r: seq<T>)
    ensures NoDups(r)
    ensures forall x :: x in r <==> x in s
    ensures OrderedByFirstOccurrence(r, s)
  {
    if s == [] then []
    else
      var init := s[..|s| - 1];
      var x := s[|s| - 1];
      var d := Dedup(init);
      assert s == init + [x];
      FirstIndexOfPrefix(init, x);
      DedupStepOrdered(init, x, d);
      if x in d then d else d + [x]
  }

  /** One `Set.add` step keeps the first-occurrence order. */
  lemma DedupStepOrdered<T(!new)>(init: seq<T>, x: T, d: seq<T>)
    requires forall y :: y in d <==> y in init
    requires OrderedByFirstOccurrence(d, init)
    requires forall y :: y in init ==> FirstIndex(init + [x], y) == FirstIndex(init, y)
    requires x !in init ==> FirstIndex(init + [x], x) == |init|
    ensures OrderedByFirstOccurrence(if x in d then d else d + [x], init + [x])
  {
    var r := if x in d then d else d + [x];
    forall i, j | 0 <= i < j < |r|
      ensures r[i] in init + [x] && r[j] in init + [x]
      ensures FirstIndex(init + [x], r[i]) < FirstIndex(init + [x], r[j])
    {
      var a := d[i];
      assert r[i] == a && a in init;
      assert FirstIndex(init + [x], a) == FirstIndex(init, a);
      if j < |d| {
        var b := d[j];
        assert r[j] == b && b in init;
        assert FirstIndex(init, a) < FirstIndex(init, b);
        assert FirstIndex(init + [x], b) == FirstIndex(init, b);
      } else {
        assert r[j] == x && x !in init;
        assert FirstIndex(init + [x], x) == |init|;
      }
    }
  }

  /** Appending to a sequence does not move the first occurrence of what it held. */
  lemma {:induction false} FirstIndexOfPrefix<T(!new)>(init: seq<T>, x: T)
    ensures forall y :: y in init ==> FirstIndex(init + [x], y) == FirstIndex(init, y)
    ensures x !in init ==> FirstIndex(init + [x], x) == |init|
  {
    if init != [] {
      FirstIndexOfPrefix(init[1..], x);
      assert (init + [x])[1..] == init[1..] + [x];
    }
  }

  /** The first `x` of `head + [x] + tail`, when `head` holds none, is right after `head`. */
  lemma FirstIndexAfter<T(!new)>(head: seq<T>, x: T, tail: seq<T>)
    requires x !in head
    ensures x in head + [x] + tail
    ensures FirstIndex(head + [x] + tail, x) == |head|
  {
    var s := head + [x] + tail;
    assert s[|head|] == x;
    FirstIndexIsFirst(s, x, |head|);
  }

  /** A duplicate-free sequence is its own de-duplication. */
  lemma {:induction false} DedupOfNoDups<T(!new)>(s: seq<T>)
    requires NoDups(s)
    ensures Dedup(s) == s
  {
    if s != [] {
      var init, x := s[..|s| - 1], s[|s| - 1];
      NoDupsSplitLast(s);
      DedupOfNoDups(init);
      assert Dedup(s) == (if x in Dedup(init) then Dedup(init) else Dedup(init) + [x]);
      assert s == init + [x];
    }
  }

  lemma NoDupsSplitLast<T(!new)>(s: seq<T>)
    requires NoDups(s) && s != []
    ensures NoDups(s[..|s| - 1]) && s[|s| - 1] !in s[..|s| - 1]
  {
    var init := s[..|s| - 1];
    forall k | 0 <= k < |init| ensures init[k] == s[k] {
    }
  }

  /** Appending elements that are already present changes nothing. */
  lemma {:induction false} DedupAbsorbs<T(!new)>(s: seq<T>, t: seq<T>)
    requires forall x :: x in t ==> x in s
    ensures Dedup(s + t) == Dedup(s)
  {
    if t != [] {
      var t' := t[..|t| - 1];
      DedupAbsorbs(s, t');
      assert (s + t)[..|s + t| - 1] == s + t';
      var x := t[|t| - 1];
      assert (s + t)[|s + t| - 1] == x;
      assert x in t && x in Dedup(s + t');
      assert Dedup(s + t) == Dedup(s + t');
    } else {
      assert s + t == s;
    }
  }

  // ---------------------------------------------------------------------------
  // The three exported operations
  // ---------------------------------------------------------------------------

  /** `intersection(a, b)`: the elements of `a` that occur in `b`, in `a`'s order. */
  function Intersection<T(==,!new)>(a: seq<T>, b: seq<T>): (r: seq<T>)
    ensures forall x :: multiset(r)[x] == if x in b then multiset(a)[x] else 0
    ensures Subsequence(r, a)
  {
    FilterIsSubsequence(a, x => x in b);
    FilterCounts(a, x => x in b);
    Filter(a, x => x in b)
  }

  /** `difference(a, b)`: the elements of `a` that do not occur in `b`, in `a`'s order. */
  function Difference<T(==,!new)>(a: seq<T>, b: seq<T>): (r: seq<T>)
    ensures forall x :: multiset(r)[x] == if x in b then 0 else multiset(a)[x]
    ensures Subsequence(r, a)
  {
    FilterIsSubsequence(a, x => x !in b);
    FilterCounts(a, x => x !in b);
    Filter(a, x => x !in b)
  }

  /**
   * `union(a, b)`: duplicate-free, holding exactly the elements of `a` and
   * `b`, ordered by first occurrence in `a ++ b`.
   */
  function Union<T(==,!new)>(a: seq<T>, b: seq<T>): (r: seq<T>)
    ensures NoDups(r)
    ensures forall x :: x in r <==> x in a || x in b
    ensures OrderedByFirstOccurrence(r, a + b)
  {
    Dedup(a + b)
  }

  // ---------------------------------------------------------------------------
  // Properties
  // ---------------------------------------------------------------------------

  /** Each element of `a` goes to exactly one of `intersection` and `difference`. */
  lemma IntersectionDifferencePartition<T(!new)>(a: seq<T>, b: seq<T>)
    ensures |Intersection(a, b)| + |Difference(a, b)| == |a|
    ensures multiset(Intersection(a, b)) + multiset(Difference(a, b)) == multiset(a)
  {
    FilterComplement(a, x => x in b, x => x !in b);
    FilterComplementElements(a, x => x in b, x => x !in b);
  }

  lemma IntersectionWithEmpty<T(!new)>(a: seq<T>, b: seq<T>)
    ensures Intersection([], b) == []
    ensures Intersection(a, []) == []
  {
    var r := Intersection(a, []);
    assert multiset(r) == multiset{};
  }

  lemma DifferenceWithEmpty<T(!new)>(a: seq<T>, b: seq<T>)
    ensures Difference([], b) == []
    ensures Difference(a, []) == a
  {
    FilterKeepsAll(a, x => x !in []);
  }

  /** `intersection(a, a) = a` (for every `a`, with or without duplicates). */
  lemma IntersectionSelf<T(!new)>(a: seq<T>)
    ensures Intersection(a, a) == a
  {
    FilterKeepsAll(a, x => x in a);
  }

  lemma DifferenceSelf<T(!new)>(a: seq<T>)
    ensures Difference(a, a) == []
  {
    var r := Difference(a, a);
    assert multiset(r) == multiset{};
  }

  /** `union(a, a)` is `a` without its repeats; `a` itself when it has none. */
  lemma UnionSelf<T(!new)>(a: seq<T>)
    ensures Union(a, a) == Dedup(a)
    ensures NoDups(a) ==> Union(a, a) == a
  {
    DedupAbsorbs(a, a);
    if NoDups(a) {
      DedupOfNoDups(a);
    }
  }

  /** A union with an empty side de-duplicates the other side, which it returns as is when it has no repeats. */
  lemma UnionWithEmpty<T(!new)>(a: seq<T>, b: seq<T>)
    ensures Union(a, []) == Dedup(a) && Union([], b) == Dedup(b)
    ensures NoDups(a) ==> Union(a, []) == a
    ensures NoDups(b) ==> Union([], b) == b
  {
    assert a + [] == a;
    assert [] + b == b;
    if NoDups(a) {
      DedupOfNoDups(a);
    }
    if NoDups(b) {
      DedupOfNoDups(b);
    }
  }

  /** No duplicates means every element is counted at most once. */
  lemma {:induction false} NoDupsCounts<T(!new)>(s: seq<T>)
    ensures NoDups(s) <==> forall x :: multiset(s)[x] <= 1
  {
    if NoDups(s) {
      if s != [] {
        var t := s[1..];
        assert s == [s[0]] + t;
        assert NoDups(t) by {
          forall i, j | 0 <= i < j < |t| ensures t[i] != t[j] {
            assert t[i] == s[i + 1] && t[j] == s[j + 1];
          }
        }
        NoDupsCounts(t);
        assert s[0] !in t by {
          forall k | 0 <= k < |t| ensures t[k] != s[0] {
            assert t[k] == s[k + 1];
          }
        }
        forall x ensures multiset(s)[x] <= 1 {
          assert multiset(s)[x] == multiset([s[0]])[x] + multiset(t)[x];
        }
      }
    } else {
      var i, j :| 0 <= i < j < |s| && s[i] == s[j];
      assert s == s[..j] + s[j..];
      assert s[i] in s[..j] && s[j] in s[j..];
      assert multiset(s)[s[i]] == multiset(s[..j])[s[i]] + multiset(s[j..])[s[i]];
    }
  }
}
