/**
 * The episode comparison between the two selected characters
 * (src/features/episodes/hooks/useEpisodeComparison.ts): episode ids of each
 * character, their union sorted in place into one bulk request, the gate on
 * that request, and the split of the fetched episodes into three columns.
 */
module EpisodeComparison {
  import opened Wrappers
  import opened SetOps
  import opened Schemas
  import opened Adapters
  import opened Store
  import opened NumberText

  /** Episodes of A only, of both, and of B only. */
  datatype Columns = Columns(left: seq<Episode>, middle: seq<Episode>, right: seq<Episode>)

  const NoColumns := Columns([], [], [])

  /** What the hook hands to its caller (its loading flag is not modelled). */
  datatype ComparisonResult = ComparisonResult(columns: Columns, error: Option<Error>)

  // ---------------------------------------------------------------------------
  // Ids of one character and of both
  // ---------------------------------------------------------------------------

  /**
   * The id set of one selected character, read in insertion order
   * (src/features/episodes/hooks/useEpisodeComparison.ts:24-32): the ids of
   * its episode URLs, or none when no character is selected.
   */
  function IdsOf(selected: Option<Character>): (ids: seq<int>)
    ensures NoDups(ids)
    ensures forall n :: n in ids <==> selected.Some? && n in ExtractIdsFromUrls(selected.value.episode)
  {
    match selected
    case None => []
    case Some(c) => Dedup(ExtractIdsFromUrls(c.episode))
  }

  predicate Sorted(s: seq<int>) {
    forall i, j :: 0 <= i < j < |s| ==> s[i] <= s[j]
  }

  predicate StrictlyAscending(s: seq<int>) {
    forall i, j :: 0 <= i < j < |s| ==> s[i] < s[j]
  }

  // ---------------------------------------------------------------------------
  // allUniqueIds.sort((a, b) => a - b)
  // ---------------------------------------------------------------------------

  /** Sorts `a` ascending in place; the result is a permutation of the input. */
  method SortAscending(a: array<int>)
    modifies a
    ensures Sorted(a[..])
    ensures multiset(a[..]) == old(multiset(a[..]))
  {
    var i := 0;
    while i < a.Length
      invariant 0 <= i <= a.Length
      invariant Sorted(a[..i])
      invariant multiset(a[..]) == old(multiset(a[..]))
    {
      InsertIntoSortedPrefix(a, i);
      i := i + 1;
    }
    assert a[..a.Length] == a[..];
  }

  /** One insertion-sort step: moves `a[i]` left into the sorted prefix `a[..i]`. */
  method InsertIntoSortedPrefix(a: array<int>, i: nat)
    requires i < a.Length && Sorted(a[..i])
    modifies a
    ensures Sorted(a[..i + 1])
    ensures a[i + 1..] == old(a[i + 1..])
    ensures multiset(a[..]) == old(multiset(a[..]))
  {
    var j := i;
    while j > 0 && a[j - 1] > a[j]
      invariant 0 <= j <= i
      invariant forall k, l :: 0 <= k < l <= i && l != j ==> a[k] <= a[l]
      invariant 0 < j < i ==> a[j - 1] <= a[j + 1]
      invariant a[i + 1..] == old(a[i + 1..])
      invariant multiset(a[..]) == old(multiset(a[..]))
    {
      SwapAdjacent(a, j - 1);
      j := j - 1;
    }
  }

  method SwapAdjacent(a: array<int>, k: nat)
    requires k + 1 < a.Length
    modifies a
    ensures a[..] == old(a[..])[k := old(a[k + 1])][k + 1 := old(a[k])]
    ensures multiset(a[..]) == old(multiset(a[..]))
  {
    a[k], a[k + 1] := a[k + 1], a[k];
  }

  /**
   * The id list of the bulk request: `allUniqueIds` copied into an array and
   * sorted in place, as line 39 does before line 43 joins it.
   */
  method RequestedIds(allUniqueIds: seq<int>) returns (request: seq<int>)
    requires NoDups(allUniqueIds)
    ensures StrictlyAscending(request)
    ensures forall n :: n in request <==> n in allUniqueIds
    ensures |request| == |allUniqueIds|
  {
    var a := new int[|allUniqueIds|](i requires 0 <= i < |allUniqueIds| => allUniqueIds[i]);
    assert a[..] == allUniqueIds;
    SortAscending(a);
    request := a[..];
    SortedPermutationOfDistinct(allUniqueIds, request);
  }

  /** A sorted permutation of a duplicate-free list is strictly ascending with the same elements. */
  lemma SortedPermutationOfDistinct(ids: seq<int>, sorted: seq<int>)
    requires NoDups(ids) && Sorted(sorted) && multiset(sorted) == multiset(ids)
    ensures StrictlyAscending(sorted)
    ensures forall n :: n in sorted <==> n in ids
    ensures |sorted| == |ids|
  {
    NoDupsCounts(ids);
    NoDupsCounts(sorted);
    assert |sorted| == |multiset(sorted)| == |multiset(ids)| == |ids|;
    forall n ensures n in sorted <==> n in ids {
      assert n in sorted <==> n in multiset(sorted);
      assert n in ids <==> n in multiset(ids);
    }
  }

  /** A strictly ascending list is fixed by its elements: the request is the one sorted list of the ids. */
  lemma {:induction false} AscendingUnique(r: seq<int>, s: seq<int>)
    requires StrictlyAscending(r) && StrictlyAscending(s)
    requires forall n :: n in r <==> n in s
    ensures r == s
  {
    assert r != [] ==> r[0] in r && r[0] in s;
    assert s != [] ==> s[0] in s && s[0] in r;
    if r != [] {
      var i :| 0 <= i < |r| && r[i] == s[0];
      var j :| 0 <= j < |s| && s[j] == r[0];
      assert r[0] == s[0] by {
        assert r[0] <= r[i] && s[0] <= s[j];
      }
      var rt, st := r[1..], s[1..];
      forall n ensures n in rt <==> n in st {
        if n in rt {
          var k :| 0 <= k < |rt| && rt[k] == n;
          assert r[k + 1] == n && r[0] < n;
          assert n in s;
        }
        if n in st {
          var k :| 0 <= k < |st| && st[k] == n;
          assert s[k + 1] == n && s[0] < n;
          assert n in r;
        }
      }
      AscendingUnique(rt, st);
      calc {
        r;
      ==
        [r[0]] + rt;
      ==
        [s[0]] + st;
      ==
        s;
      }
    }
  }

  // ---------------------------------------------------------------------------
  // The query and the gate
  // ---------------------------------------------------------------------------

  /**
   * The gate on the query (src/features/episodes/hooks/useEpisodeComparison.ts:48):
   * some id to ask for, and a comparison key.
   */
  function FetchEnabled(allUniqueIds: seq<int>, compareKey: Option<int>): bool {
    |allUniqueIds| > 0 && compareKey.Some?
  }

  /**
   * The query function: no request for an empty id list, otherwise one bulk
   * fetch whose body is normalised into a list of episodes.
   */
  function QueryFn<R>(ids: seq<int>, fetch: seq<int> -> Result<Response<R>, Error>,
                      validate: R -> Option<Episode>): (r: Result<seq<Episode>, Error>)
    ensures |ids| == 0 ==> r == Success([])
    ensures r.Failure? ==> r.error == ValidationError || (|ids| > 0 && fetch(ids) == Failure(r.error))
    ensures |ids| > 0 && fetch(ids).Failure? ==> r == Failure(fetch(ids).error)
    ensures |ids| > 0 && fetch(ids).Success? && fetch(ids).value.Many? ==>
      var items := fetch(ids).value.items;
      && (r.Success? <==> forall i :: 0 <= i < |items| ==> validate(items[i]).Some?)
      && (r.Success? ==> |r.value| == |items|)
      && (r.Success? ==> forall i :: 0 <= i < |items| ==> validate(items[i]) == Some(r.value[i]))
    ensures |ids| > 0 && fetch(ids).Success? && fetch(ids).value.One? ==>
      var item := fetch(ids).value.item;
      && (r.Success? <==> validate(item).Some?)
      && (r.Success? ==> r.value == [validate(item).value])
  {
    if |ids| == 0 then Success([])
    else
      match fetch(ids)
      case Failure(e) => Failure(e)
      case Success(data) => NormalizeEpisodeResponse(data, validate)
  }

  /** The query runs exactly when either character has an episode id and a comparison key is set. */
  lemma FetchEnabledOfUnion(idsA: seq<int>, idsB: seq<int>, compareKey: Option<int>)
    ensures FetchEnabled(Union(idsA, idsB), compareKey) <==> (|idsA| > 0 || |idsB| > 0) && compareKey.Some?
  {
    var u := Union(idsA, idsB);
    if |idsA| > 0 {
      assert idsA[0] in u;
    } else if |idsB| > 0 {
      assert idsB[0] in u;
    }
  }

  // ---------------------------------------------------------------------------
  // The three columns
  // ---------------------------------------------------------------------------

  /**
   * The columns for the fetched episodes (`None` while nothing has been
   * fetched): A only, both, B only, each keeping the fetched order.
   */
  function Partition(episodes: Option<seq<Episode>>, idsA: seq<int>, idsB: seq<int>): (c: Columns)
    ensures episodes.None? ==> c == NoColumns
    ensures episodes.Some? ==>
      && Subsequence(c.left, episodes.value)
      && Subsequence(c.middle, episodes.value)
      && Subsequence(c.right, episodes.value)
    ensures episodes.Some? ==> forall e ::
      && multiset(c.left)[e] == (if e.id in idsA && e.id !in idsB then multiset(episodes.value)[e] else 0)
      && multiset(c.middle)[e] == (if e.id in idsA && e.id in idsB then multiset(episodes.value)[e] else 0)
      && multiset(c.right)[e] == (if e.id in idsB && e.id !in idsA then multiset(episodes.value)[e] else 0)
  {
    if episodes.None? || |episodes.value| == 0 then NoColumns
    else
      var eps := episodes.value;
      FilterIsSubsequence(eps, OnlyInA(idsA, idsB));
      FilterIsSubsequence(eps, InBoth(idsA, idsB));
      FilterIsSubsequence(eps, OnlyInB(idsA, idsB));
      FilterCounts(eps, OnlyInA(idsA, idsB));
      FilterCounts(eps, InBoth(idsA, idsB));
      FilterCounts(eps, OnlyInB(idsA, idsB));
      Columns(
        Filter(eps, OnlyInA(idsA, idsB)),
        Filter(eps, InBoth(idsA, idsB)),
        Filter(eps, OnlyInB(idsA, idsB)))
  }

  /** The three filter conditions of the columns. */
  function OnlyInA(idsA: seq<int>, idsB: seq<int>): Episode -> bool {
    (ep: Episode) => ep.id in idsA && ep.id !in idsB
  }

  function InBoth(idsA: seq<int>, idsB: seq<int>): Episode -> bool {
    (ep: Episode) => ep.id in idsA && ep.id in idsB
  }

  function OnlyInB(idsA: seq<int>, idsB: seq<int>): Episode -> bool {
    (ep: Episode) => ep.id in idsB && ep.id !in idsA
  }

  /** No episode id occurs in two columns. */
  lemma PartitionDisjoint(episodes: seq<Episode>, idsA: seq<int>, idsB: seq<int>)
    ensures var c := Partition(Some(episodes), idsA, idsB);
      forall e1, e2 ::
        && (e1 in c.left && e2 in c.middle ==> e1.id != e2.id)
        && (e1 in c.middle && e2 in c.right ==> e1.id != e2.id)
        && (e1 in c.left && e2 in c.right ==> e1.id != e2.id)
  {
    var c := Partition(Some(episodes), idsA, idsB);
    forall e1, e2
      ensures e1 in c.left && e2 in c.middle ==> e1.id != e2.id
      ensures e1 in c.middle && e2 in c.right ==> e1.id != e2.id
      ensures e1 in c.left && e2 in c.right ==> e1.id != e2.id
    {
      assert e1 in c.left ==> multiset(c.left)[e1] > 0;
      assert e1 in c.middle ==> multiset(c.middle)[e1] > 0;
      assert e2 in c.middle ==> multiset(c.middle)[e2] > 0;
      assert e2 in c.right ==> multiset(c.right)[e2] > 0;
    }
  }

  /**
   * A fetched episode whose id belongs to A or B is in exactly one column;
   * one whose id belongs to neither is in none.
   */
  lemma PartitionCovers(episodes: seq<Episode>, idsA: seq<int>, idsB: seq<int>, e: Episode)
    requires e in episodes
    ensures var c := Partition(Some(episodes), idsA, idsB);
      var places := (if e in c.left then 1 else 0) + (if e in c.middle then 1 else 0)
                    + (if e in c.right then 1 else 0);
      && (e.id in idsA || e.id in idsB ==> places == 1)
      && (e.id !in idsA && e.id !in idsB ==> places == 0)
  {
    var c := Partition(Some(episodes), idsA, idsB);
    assert multiset(episodes)[e] > 0;
    assert e in c.left <==> multiset(c.left)[e] > 0;
    assert e in c.middle <==> multiset(c.middle)[e] > 0;
    assert e in c.right <==> multiset(c.right)[e] > 0;
  }

  /** Nothing fetched, or an empty list fetched: three empty columns. */
  lemma PartitionOfNothing(idsA: seq<int>, idsB: seq<int>)
    ensures Partition(None, idsA, idsB) == NoColumns
    ensures Partition(Some([]), idsA, idsB) == NoColumns
  {
  }

  // ---------------------------------------------------------------------------
  // The hook
  // ---------------------------------------------------------------------------

  /**
   * One evaluation of the hook for the store's current selection. `fetch` is
   * the bulk endpoint `GET /episode/{ids}` applied to the requested id list;
   * `request` is that list when a request is made.
   */
  method UseEpisodeComparison<R>(store: ComparisonStore, compareKey: Option<int>,
                                 fetch: seq<int> -> Result<Response<R>, Error>,
                                 validate: R -> Option<Episode>)
    returns (result: ComparisonResult, request: Option<seq<int>>)
    ensures var idsA, idsB := IdsOf(store.selectedCharA), IdsOf(store.selectedCharB);
      && (request.Some? <==> (|idsA| > 0 || |idsB| > 0) && compareKey.Some?)
      && (request.Some? ==> StrictlyAscending(request.value))
      && (request.Some? ==> forall n :: n in request.value <==> n in idsA || n in idsB)
      && (request.None? ==> result == ComparisonResult(NoColumns, None))
      && (request.Some? ==>
            match QueryFn(request.value, fetch, validate)
            case Success(episodes) => result == ComparisonResult(Partition(Some(episodes), idsA, idsB), None)
            case Failure(e) => result == ComparisonResult(NoColumns, Some(e)))
  {
    var idsA := IdsOf(store.selectedCharA);
    var idsB := IdsOf(store.selectedCharB);
    var allUniqueIds := Union(idsA, idsB);
    var ids := RequestedIds(allUniqueIds);
    if FetchEnabled(allUniqueIds, compareKey) {
      request := Some(ids);
      match QueryFn(ids, fetch, validate)
      case Success(episodes) =>
        result := ComparisonResult(Partition(Some(episodes), idsA, idsB), None);
      case Failure(e) =>
        result := ComparisonResult(Partition(None, idsA, idsB), Some(e));
    } else {
      request := None;
      result := ComparisonResult(Partition(None, idsA, idsB), None);
    }
  }

  // ---------------------------------------------------------------------------
  // The scenarios of the hook's integration tests
  // ---------------------------------------------------------------------------

  /** An episode URL whose last segment is a single digit yields that digit's value. */
  lemma IdOfDigitSegment(base: string, d: char)
    requires IsDigit(d)
    ensures IdOf(base + ['/', d]) == Some(DigitValue(d))
  {
    var url := base + ['/', d];
    assert url[..|url| - 1][|url| - 2] == '/';
    assert LastSegment(url) == [d];
    assert DecimalValue([d]) == DigitValue(d) by {
      assert [d][..0] == [];
    }
  }

  /** Ids {1, 2, 3} and {2, 3, 4}, episodes 1 to 4 fetched in order: [1] | [2, 3] | [4]. */
  lemma PartitionExample(e1: Episode, e2: Episode, e3: Episode, e4: Episode)
    requires e1.id == 1 && e2.id == 2 && e3.id == 3 && e4.id == 4
    ensures Partition(Some([e1, e2, e3, e4]), [1, 2, 3], [2, 3, 4]) == Columns([e1], [e2, e3], [e4])
  {
    var s := [e1, e2, e3, e4];
    var idsA, idsB := [1, 2, 3], [2, 3, 4];
    assert Filter(s, OnlyInA(idsA, idsB)) == [e1] by {
      var p := OnlyInA(idsA, idsB);
      assert p(e1) && !p(e2) && !p(e3) && !p(e4);
      assert Filter(s[3..], p) == [];
      assert Filter(s[2..], p) == [];
      assert Filter(s[1..], p) == [];
    }
    assert Filter(s, InBoth(idsA, idsB)) == [e2, e3] by {
      var p := InBoth(idsA, idsB);
      assert !p(e1) && p(e2) && p(e3) && !p(e4);
      assert Filter(s[3..], p) == [];
      assert Filter(s[2..], p) == [e3];
      assert Filter(s[1..], p) == [e2, e3];
    }
    assert Filter(s, OnlyInB(idsA, idsB)) == [e4] by {
      var p := OnlyInB(idsA, idsB);
      assert !p(e1) && !p(e2) && !p(e3) && p(e4);
      assert Filter(s[3..], p) == [e4];
      assert Filter(s[2..], p) == [e4];
      assert Filter(s[1..], p) == [e4];
    }
  }

  /** A character in the episodes `base/d0`, `base/d1`, `base/d2` for distinct digits. */
  lemma IdsOfDigitUrls(base: string, c: Character, d0: char, d1: char, d2: char)
    requires IsDigit(d0) && IsDigit(d1) && IsDigit(d2)
    requires NoDups([DigitValue(d0), DigitValue(d1), DigitValue(d2)])
    requires c.episode == [base + ['/', d0], base + ['/', d1], base + ['/', d2]]
    ensures IdsOf(Some(c)) == [DigitValue(d0), DigitValue(d1), DigitValue(d2)]
  {
    ExtractDigitUrls(base, d0, d1, d2);
    IdsOfDistinct(c, [DigitValue(d0), DigitValue(d1), DigitValue(d2)]);
  }

  /** Three such URLs give the three digit values, in URL order. */
  lemma ExtractDigitUrls(base: string, d0: char, d1: char, d2: char)
    requires IsDigit(d0) && IsDigit(d1) && IsDigit(d2)
    ensures ExtractIdsFromUrls([base + ['/', d0], base + ['/', d1], base + ['/', d2]])
         == [DigitValue(d0), DigitValue(d1), DigitValue(d2)]
  {
    var urls := [base + ['/', d0], base + ['/', d1], base + ['/', d2]];
    var ids := [DigitValue(d0), DigitValue(d1), DigitValue(d2)];
    IdOfDigitSegment(base, d0);
    IdOfDigitSegment(base, d1);
    IdOfDigitSegment(base, d2);
    forall k | 0 <= k < 3 ensures IdOf(urls[k]) == Some(ids[k]) {
      if k == 0 {
      } else if k == 1 {
      } else {
      }
    }
    ExtractIdsAllWellFormed(urls, ids);
  }

  /** One such URL gives its digit value. */
  lemma ExtractDigitUrl(base: string, d: char)
    requires IsDigit(d)
    ensures ExtractIdsFromUrls([base + ['/', d]]) == [DigitValue(d)]
  {
    IdOfDigitSegment(base, d);
    ExtractIdsAllWellFormed([base + ['/', d]], [DigitValue(d)]);
  }

  /** Distinct extracted ids are the character's ids as they stand. */
  lemma IdsOfDistinct(c: Character, ids: seq<int>)
    requires ExtractIdsFromUrls(c.episode) == ids && NoDups(ids)
    ensures IdsOf(Some(c)) == ids
  {
    DedupOfNoDups(ids);
  }

  /**
   * The hook's categorisation test: A appears in episodes 1, 2, 3 and B in
   * 2, 3, 4; with episodes 1 to 4 fetched the columns are [1] | [2, 3] | [4].
   */
  lemma CategorizationExample(base: string, a: Character, b: Character, e1: Episode, e2: Episode, e3: Episode, e4: Episode)
    requires a.episode == [base + "/1", base + "/2", base + "/3"]
    requires b.episode == [base + "/2", base + "/3", base + "/4"]
    requires e1.id == 1 && e2.id == 2 && e3.id == 3 && e4.id == 4
    ensures Partition(Some([e1, e2, e3, e4]), IdsOf(Some(a)), IdsOf(Some(b))) == Columns([e1], [e2, e3], [e4])
  {
    IdsOfFirstCharacter(base, a);
    IdsOfSecondCharacter(base, b);
    PartitionExample(e1, e2, e3, e4);
  }

  /** The first character of the hook tests appears in episodes 1, 2 and 3. */
  lemma IdsOfFirstCharacter(base: string, a: Character)
    requires a.episode == [base + "/1", base + "/2", base + "/3"]
    ensures IdsOf(Some(a)) == [1, 2, 3]
  {
    IdsOfDigitUrls(base, a, '1', '2', '3');
  }

  /** The second character of the hook tests appears in episodes 2, 3 and 4. */
  lemma IdsOfSecondCharacter(base: string, b: Character)
    requires b.episode == [base + "/2", base + "/3", base + "/4"]
    ensures IdsOf(Some(b)) == [2, 3, 4]
  {
    IdsOfDigitUrls(base, b, '2', '3', '4');
  }

  /**
   * The hook's request test: for the same two characters, any request the
   * hook can make (strictly ascending, holding exactly both characters' ids)
   * is the id list 1, 2, 3, 4.
   */
  lemma RequestExample(base: string, a: Character, b: Character, request: seq<int>)
    requires a.episode == [base + "/1", base + "/2", base + "/3"]
    requires b.episode == [base + "/2", base + "/3", base + "/4"]
    requires StrictlyAscending(request)
    requires forall n :: n in request <==> n in IdsOf(Some(a)) || n in IdsOf(Some(b))
    ensures request == [1, 2, 3, 4]
  {
    IdsOfFirstCharacter(base, a);
    IdsOfSecondCharacter(base, b);
    RequestOfIds(request, IdsOf(Some(a)), IdsOf(Some(b)));
  }

  /** The ascending request for ids 1, 2, 3 and 2, 3, 4. */
  lemma RequestOfIds(request: seq<int>, idsA: seq<int>, idsB: seq<int>)
    requires idsA == [1, 2, 3] && idsB == [2, 3, 4]
    requires StrictlyAscending(request)
    requires forall n :: n in request <==> n in idsA || n in idsB
    ensures request == [1, 2, 3, 4]
  {
    forall n ensures n in request <==> n in [1, 2, 3, 4] {
      assert n in request <==> n in idsA || n in idsB;
    }
    AscendingUnique(request, [1, 2, 3, 4]);
  }

  /** One character in one episode, the other in none: the union is that one id. */
  lemma SingleObjectIds(base: string, a: Character, b: Character)
    requires a.episode == [base + "/1"] && b.episode == []
    ensures IdsOf(Some(a)) == [1] && IdsOf(Some(b)) == []
    ensures Union(IdsOf(Some(a)), IdsOf(Some(b))) == [1]
  {
    ExtractDigitUrl(base, '1');
    IdsOfDistinct(a, [1]);
    UnionWithEmpty([1], []);
  }

  /** A bare episode object answered for a single id comes back as a one-element list. */
  lemma SingleObjectQuery(e: Episode)
    ensures QueryFn([1], _ => Success(One(e)), (x: Episode) => Some(x)) == Success([e])
  {
    var fetch: seq<int> -> Result<Response<Episode>, Error> := _ => Success(One(e));
    assert fetch([1]) == Success(One(e));
  }

  /** The single fetched episode of A lands in A's column only. */
  lemma SingleObjectPartition(e: Episode)
    requires e.id == 1
    ensures Partition(Some([e]), [1], []) == Columns([e], [], [])
  {
    var s := [e];
    assert Filter(s, OnlyInA([1], [])) == [e] by {
      assert Filter(s[1..], OnlyInA([1], [])) == [];
    }
    assert Filter(s, InBoth([1], [])) == [] by {
      assert Filter(s[1..], InBoth([1], [])) == [];
    }
    assert Filter(s, OnlyInB([1], [])) == [] by {
      assert Filter(s[1..], OnlyInB([1], [])) == [];
    }
  }

  /**
   * The hook's single-object test: A appears only in episode 1, B in none;
   * the request is [1], the bare-object response becomes a one-element list,
   * and that episode lands in `left`.
   */
  lemma SingleObjectExample(base: string, a: Character, b: Character, e: Episode)
    requires a.episode == [base + "/1"] && b.episode == []
    requires e.id == 1
    ensures var ids := Union(IdsOf(Some(a)), IdsOf(Some(b)));
      && ids == [1]
      && QueryFn(ids, _ => Success(One(e)), (x: Episode) => Some(x)) == Success([e])
      && Partition(Some([e]), IdsOf(Some(a)), IdsOf(Some(b))) == Columns([e], [], [])
  {
    SingleObjectIds(base, a, b);
    SingleObjectQuery(e);
    SingleObjectPartition(e);
  }
}
