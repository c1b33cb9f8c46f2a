/**
 * Adapters between the API's payloads and the comparison (src/lib/adapters.ts):
 * episode ids taken from episode URLs, and a bulk episode response that is
 * always turned into a list.
 */
module Adapters {
  import opened Wrappers
  import opened NumberText
  import opened Schemas

  /** The two ways a comparison can fail. */
  datatype Error = ValidationError | NetworkError(message: string)

  /**
   * A decoded JSON response body: an array, or a bare value (the API answers
   * a request for a single id with the object itself).
   */
  datatype Response<R> = Many(items: seq<R>) | One(item: R)

  // ---------------------------------------------------------------------------
  // extractIdsFromUrls
  // ---------------------------------------------------------------------------

  /**
   * `url.split('/').pop()`: the longest suffix of `url` without a `/`; all of
   * `url` when it has no `/`, and "" when it ends in `/`.
   */
  function LastSegment(url: string): (seg: string)
    ensures '/' !in seg
    ensures |seg| <= |url| && url[|url| - |seg|..] == seg
    ensures |seg| == |url| || url[|url| - |seg| - 1] == '/'
  {
    if url == [] then []
    else if url[|url| - 1] == '/' then []
    else LastSegment(url[..|url| - 1]) + [url[|url| - 1]]
  }

  /**
   * `Number(seg)` followed by the `isNaN` filter, for the forms a segment of
   * an episode URL takes: a digit string is read in decimal, the empty string
   * is 0 (as in JavaScript), and anything else is dropped.
   */
  function ParseSegment(seg: string): (r: Option<int>)
    ensures r.Some? <==> AllDigits(seg)
    ensures r.Some? ==> r.value == DecimalValue(seg)
  {
    if seg == [] then Some(0)
    else if AllDigits(seg) then Some(DecimalValue(seg))
    else None
  }

  /**
   * The id one URL contributes, if any: the decimal value of its last
   * segment when that segment is all digits (the empty segment counting as 0).
   */
  function IdOf(url: string): (r: Option<int>)
    ensures r.Some? <==> AllDigits(LastSegment(url))
    ensures r.Some? ==> r.value == DecimalValue(LastSegment(url))
  {
    ParseSegment(LastSegment(url))
  }

  /**
   * The ids of a list of URLs (src/lib/adapters.ts:11-15): each URL's last
   * segment read as a number, the segments that are not numbers dropped.
   */
  function ExtractIdsFromUrls(urls: seq<string>): (ids: seq<int>)
    ensures |ids| <= |urls|
  {
    MapDefined(urls, IdOf)
  }

  /**
   * `xs.map(f)` with the undefined results dropped, in order. Stated for any
   * `f` so that the facts about order and membership below do not depend on
   * how a URL is parsed.
   */
  function MapDefined<X>(xs: seq<X>, f: X -> Option<int>): (ys: seq<int>)
    ensures |ys| <= |xs|
  {
    if xs == [] then []
    else
      (match f(xs[0]) case Some(n) => [n] case None => []) + MapDefined(xs[1..], f)
  }

  lemma {:induction false} MapDefinedMembers<X>(xs: seq<X>, f: X -> Option<int>, n: int)
    ensures n in MapDefined(xs, f) <==> exists x :: x in xs && f(x) == Some(n)
  {
    if xs != [] {
      MapDefinedMembers(xs[1..], f, n);
      assert forall x :: x in xs <==> x == xs[0] || x in xs[1..];
    }
  }

  lemma {:induction false} MapDefinedAppend<X>(xs: seq<X>, ys: seq<X>, f: X -> Option<int>)
    ensures MapDefined(xs + ys, f) == MapDefined(xs, f) + MapDefined(ys, f)
  {
    if xs == [] {
      assert xs + ys == ys;
    } else {
      assert (xs + ys)[0] == xs[0] && (xs + ys)[1..] == xs[1..] + ys;
      MapDefinedAppend(xs[1..], ys, f);
    }
  }

  lemma {:induction false} MapDefinedAll<X>(xs: seq<X>, ids: seq<int>, f: X -> Option<int>)
    requires |xs| == |ids|
    requires forall i :: 0 <= i < |xs| ==> f(xs[i]) == Some(ids[i])
    ensures MapDefined(xs, f) == ids
  {
    if xs != [] {
      MapDefinedAll(xs[1..], ids[1..], f);
      assert ids == [ids[0]] + ids[1..];
    }
  }

  /** An id is extracted exactly when some URL yields it. */
  lemma {:induction false} ExtractIdsMembers(urls: seq<string>, n: int)
    ensures n in ExtractIdsFromUrls(urls) <==> exists u :: u in urls && IdOf(u) == Some(n)
  {
    MapDefinedMembers(urls, IdOf, n);
  }

  /** Extraction works URL by URL: it distributes over concatenation, so order is kept. */
  lemma {:induction false} ExtractIdsAppend(urls1: seq<string>, urls2: seq<string>)
    ensures ExtractIdsFromUrls(urls1 + urls2) == ExtractIdsFromUrls(urls1) + ExtractIdsFromUrls(urls2)
  {
    MapDefinedAppend(urls1, urls2, IdOf);
  }

  /** One URL contributes its id, or nothing when its last segment is not a number. */
  lemma ExtractIdsSingle(url: string)
    ensures ExtractIdsFromUrls([url]) == match IdOf(url) case Some(n) => [n] case None => []
  {
    assert [url][1..] == [];
  }

  /** Only the text after the last `/` is inspected. */
  lemma IdOfLastSegment(prefix: string, seg: string)
    requires '/' !in seg
    ensures IdOf(prefix + "/" + seg) == ParseSegment(seg)
  {
    var url := prefix + "/" + seg;
    var last := LastSegment(url);
    assert url[|prefix|] == '/' && url[|prefix| + 1..] == seg;
    assert last == seg;
  }

  /** A URL ending in `/` and a string of decimal digits yields the digits' value. */
  lemma IdOfDigits(prefix: string, digits: string)
    requires |digits| > 0 && AllDigits(digits)
    ensures IdOf(prefix + "/" + digits) == Some(DecimalValue(digits))
  {
    assert '/' !in digits by {
      forall i | 0 <= i < |digits| ensures digits[i] != '/' { assert IsDigit(digits[i]); }
    }
    IdOfLastSegment(prefix, digits);
  }

  /** An episode URL built from a number yields exactly that number. */
  lemma IdOfEpisodeUrl(prefix: string, n: nat)
    ensures IdOf(prefix + "/" + NatToString(n)) == Some(n)
  {
    IdOfDigits(prefix, NatToString(n));
  }

  /** When every URL yields an id, extraction lists those ids in URL order. */
  lemma {:induction false} ExtractIdsAllWellFormed(urls: seq<string>, ids: seq<int>)
    requires |urls| == |ids|
    requires forall i :: 0 <= i < |urls| ==> IdOf(urls[i]) == Some(ids[i])
    ensures ExtractIdsFromUrls(urls) == ids
  {
    MapDefinedAll(urls, ids, IdOf);
  }

  /** A URL ending in `/` has the empty last segment, which `Number` reads as 0. */
  lemma IdOfTrailingSlash(prefix: string)
    ensures IdOf(prefix + "/") == Some(0)
  {
    assert (prefix + "/")[|prefix + "/"| - 1] == '/';
  }

  /** A string without `/` is parsed as a whole. */
  lemma IdOfWithoutSlash(url: string)
    requires '/' !in url
    ensures IdOf(url) == ParseSegment(url)
  {
  }

  /** A non-empty last segment that is not all digits is dropped. */
  lemma IdOfNonNumeric(url: string)
    ensures IdOf(url).None? <==> (LastSegment(url) != [] && !AllDigits(LastSegment(url)))
  {
  }

  // ---------------------------------------------------------------------------
  // normalizeEpisodeResponse
  // ---------------------------------------------------------------------------

  /**
   * Array validation against the episode schema (src/lib/adapters.ts:6): every item validated in order;
   * one failure fails the whole array.
   */
  function ValidateAll<R>(items: seq<R>, validate: R -> Option<Episode>): (r: Option<seq<Episode>>)
    ensures r.Some? <==> forall i :: 0 <= i < |items| ==> validate(items[i]).Some?
    ensures r.Some? ==> |r.value| == |items|
    ensures r.Some? ==> forall i :: 0 <= i < |items| ==> validate(items[i]) == Some(r.value[i])
  {
    if items == [] then Some([])
    else
      match validate(items[0])
      case None => None
      case Some(e) =>
        match ValidateAll(items[1..], validate)
        case None => None
        case Some(rest) => Some([e] + rest)
  }

  /**
   * Always a list: an array response validated element by element, a bare
   * object wrapped as a one-element list; any validation failure fails the call.
   */
  function NormalizeEpisodeResponse<R>(data: Response<R>, validate: R -> Option<Episode>): (r: Result<seq<Episode>, Error>)
    ensures r.Failure? ==> r.error == ValidationError
    ensures data.Many? ==>
      && (r.Success? <==> forall i :: 0 <= i < |data.items| ==> validate(data.items[i]).Some?)
      && (r.Success? ==> |r.value| == |data.items|)
      && (r.Success? ==> forall i :: 0 <= i < |data.items| ==> validate(data.items[i]) == Some(r.value[i]))
    ensures data.One? ==>
      && (r.Success? <==> validate(data.item).Some?)
      && (r.Success? ==> |r.value| == 1 && validate(data.item) == Some(r.value[0]))
  {
    match data
    case Many(items) =>
      (match ValidateAll(items, validate)
       case Some(episodes) => Success(episodes)
       case None => Failure(ValidationError))
    case One(item) =>
      (match validate(item)
       case Some(e) => Success([e])
       case None => Failure(ValidationError))
  }
}
