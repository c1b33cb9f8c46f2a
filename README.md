# Episode comparison, modelled and proved in Dafny

This project models the one computational pipeline of the character
comparator:
- Two characters are selected in a two-slot store.
- The episode ids of each are read from the character's episode URLs.
- Their duplicate-free union is sorted ascending in place and sent as one bulk request.
- The fetched episodes are split into three columns: only A, both, only B.
- A list of episodes can be exported as CSV text.

| file | module | source |
|---|---|---|
| `wrappers.dfy` | `Wrappers` | `Option` and `Result` |
| `set_ops.dfy` | `SetOps` | `src/features/episodes/utils/set-ops.ts` |
| `number_text.dfy` | `NumberText` | decimal text of ids, parsed in `src/lib/adapters.ts` and printed in `src/lib/csv.ts` |
| `schemas.dfy` | `Schemas` | `Character` (after `src/schemas/character.ts`) and `Episode` |
| `adapters.dfy` | `Adapters` | `src/lib/adapters.ts` |
| `comparison_store.dfy` | `Store` | `src/store/comparison.store.ts` |
| `episode_comparison.dfy` | `EpisodeComparison` | `src/features/episodes/hooks/useEpisodeComparison.ts`, lines 24-62 |
| `csv.dfy` | `Csv` | `src/lib/csv.ts`, lines 4-15 |

How the source's constructs are represented:
- **Arrays and Sets.** JavaScript arrays become sequences.
  - `filter` is `SetOps.Filter`.
  - `Array.from(new Set(xs))` is `SetOps.Dedup`. It keeps the first occurrence of each element, in order, because a JavaScript Set remembers insertion order.
- **The store** mutates its two fields, so it is a class with modifying methods.
- **The in-place sort** at line 39 of the hook is an insertion sort on an `array<int>`.
- **Effects and libraries become parameters.**
  - The HTTP call is a function `fetch` from the requested id list to a response or an error.
  - Schema validation is a function `validate` from a raw item to an optional `Episode`.
- **Kept as written:**
  - `Number('')` is 0, so a URL ending in `/` yields id 0.
  - The air date is written unquoted, so a row whose air date holds a comma reads back as five fields.

## Model

| member | source | states |
|---|---|---|
| SetOps.Intersection | src/features/episodes/utils/set-ops.ts:9-12 | every element of `a` that occurs in `b` is kept with its multiplicity in `a`, no other element is kept, and `a`'s order is preserved (a subsequence of `a`) |
| SetOps.Difference | src/features/episodes/utils/set-ops.ts:17-20 | every element of `a` that does not occur in `b` is kept with its multiplicity, no other element is kept, and `a`'s order is preserved |
| SetOps.Union | src/features/episodes/utils/set-ops.ts:25-27 | no duplicates; an element is in the union iff it is in `a` or in `b`; elements are ordered by first occurrence in `a ++ b` |
| SetOps.Dedup | src/features/episodes/utils/set-ops.ts:26 | reading back a Set filled from `s`: duplicate-free, the same elements as `s`, ordered by first occurrence in `s` |
| SetOps.Filter | src/features/episodes/utils/set-ops.ts:11 | `filter` never lengthens the array, and every element it keeps satisfies the predicate (FilterCounts and FilterIsSubsequence give what it keeps and in what order) |
| SetOps.FilterCounts | src/features/episodes/utils/set-ops.ts:11 | a filter keeps each element satisfying the predicate with its multiplicity and drops every other element |
| SetOps.FilterIsSubsequence | src/features/episodes/utils/set-ops.ts:11 | a filter's result is a subsequence of its input |
| SetOps.IntersectionDifferencePartition | src/features/episodes/utils/set-ops.ts:9-20 | each position of `a` goes to exactly one of intersection and difference: lengths add up to `|a|` and the multisets add up to `a`'s |
| SetOps.IntersectionWithEmpty | __tests__/unit/set-ops.test.ts:16-24 | intersection with `[]` on either side is `[]` |
| SetOps.DifferenceWithEmpty | __tests__/unit/set-ops.test.ts:48-56 | `difference([], b) = []` and `difference(a, []) = a` |
| SetOps.IntersectionSelf | __tests__/unit/set-ops.test.ts:26-29 | `intersection(a, a) = a`, for every `a` |
| SetOps.DifferenceSelf | __tests__/unit/set-ops.test.ts:58-61 | `difference(a, a) = []` |
| SetOps.UnionSelf | __tests__/unit/set-ops.test.ts:85-88 | `union(a, a)` is `a` de-duplicated, and equals `a` when `a` has no duplicates |
| SetOps.UnionWithEmpty | __tests__/unit/set-ops.test.ts:75-83 | a union with an empty side is the other side de-duplicated, and equals that side when it has no duplicates |
| SetOps.DedupOfNoDups | src/features/episodes/utils/set-ops.ts:26 | a Set filled from a duplicate-free array reads back as that array |
| SetOps.DedupAbsorbs | src/features/episodes/utils/set-ops.ts:26 | adding elements that are already in the Set changes nothing |
| NumberText.NatToString | src/lib/csv.ts:9 | the decimal text of a natural number: digits only, no leading zero, and it reads back as the number |
| NumberText.IntToString | src/lib/csv.ts:9 | the decimal text of an id: a `-` exactly when the id is negative, followed by the canonical digits of its magnitude |
| NumberText.NatToStringOfValue | src/lib/adapters.ts:13 | every canonical digit string is the printed form of its own value, so parsing and printing are inverse |
| Adapters.LastSegment | src/lib/adapters.ts:13 | `split('/').pop()` is the longest `/`-free suffix: the whole URL when it has no `/`, otherwise what follows the last `/` |
| Adapters.ParseSegment | src/lib/adapters.ts:13-14 | a segment yields a number iff it is all decimal digits, the empty segment included, and that number is its decimal value, 0 for the empty segment; other segments are dropped |
| Adapters.IdOf | src/lib/adapters.ts:13-14 | a URL yields an id iff its last segment is all decimal digits, and the id is that segment's decimal value |
| Adapters.ExtractIdsFromUrls | src/lib/adapters.ts:11-15 | never more ids than URLs; in particular no URLs give no ids |
| Adapters.ExtractIdsMembers | src/lib/adapters.ts:12-14 | an id is extracted iff some URL's last segment parses to it |
| Adapters.ExtractIdsAppend | src/lib/adapters.ts:12-14 | extraction works URL by URL and distributes over concatenation, so input order is kept |
| Adapters.ExtractIdsSingle | src/lib/adapters.ts:13-14 | one URL contributes its id, or nothing when its segment is not a number |
| Adapters.ExtractIdsAllWellFormed | __tests__/unit/adapters.test.ts:40-48 | when every URL yields an id, the result is exactly those ids in URL order |
| Adapters.IdOfLastSegment | src/lib/adapters.ts:13 | only the text after the last `/` is parsed, whatever precedes it |
| Adapters.IdOfDigits | src/lib/adapters.ts:13 | a non-empty decimal digit string after the last `/` yields exactly its value (leading zeros allowed) |
| Adapters.IdOfEpisodeUrl | __tests__/unit/adapters.test.ts:65-73 | an episode URL ending in `/<n>` yields `n` |
| Adapters.IdOfTrailingSlash | src/lib/adapters.ts:13 | a URL ending in `/` yields id 0, because `Number('')` is 0 |
| Adapters.IdOfWithoutSlash | src/lib/adapters.ts:13 | a string with no `/` is parsed whole |
| Adapters.IdOfNonNumeric | __tests__/unit/adapters.test.ts:55-63 | within the decimal-digit grammar modelled for `Number`, a URL is dropped, silently, iff its last segment is non-empty and not all digits |
| Adapters.ValidateAll | src/lib/adapters.ts:6 | array validation succeeds iff every item validates; the list then has the same length and order |
| Adapters.NormalizeEpisodeResponse | src/lib/adapters.ts:4-9 | always a list: an array keeps its length and order, a bare object becomes a one-element list, and any validation failure fails the whole call with a validation error |
| Store.ComparisonStore.constructor | src/store/comparison.store.ts:12-14 | both slots start empty |
| Store.ComparisonStore.SetSelectedCharA | src/store/comparison.store.ts:15 | slot A becomes the argument (null empties it); slot B is unchanged |
| Store.ComparisonStore.SetSelectedCharB | src/store/comparison.store.ts:16 | slot B becomes the argument (null empties it); slot A is unchanged |
| Store.ComparisonStore.Clear | src/store/comparison.store.ts:17 | both slots become empty from any state, so a second clear changes nothing |
| EpisodeComparison.IdsOf | src/features/episodes/hooks/useEpisodeComparison.ts:24-32 | a character's id set is duplicate-free and holds exactly the ids extracted from its episode URLs; no character gives no ids |
| EpisodeComparison.SortAscending | src/features/episodes/hooks/useEpisodeComparison.ts:39 | sorting in place leaves the array ascending and a permutation of what it held |
| EpisodeComparison.InsertIntoSortedPrefix | src/features/episodes/hooks/useEpisodeComparison.ts:39 | one sorting step extends the sorted prefix by one element and only permutes the array |
| EpisodeComparison.SortedPermutationOfDistinct | src/features/episodes/hooks/useEpisodeComparison.ts:34-39 | sorting a duplicate-free list gives a strictly ascending list with the same elements and length |
| EpisodeComparison.RequestedIds | src/features/episodes/hooks/useEpisodeComparison.ts:39-43 | the joined id list is strictly ascending, so it is duplicate-free; it holds exactly the union's ids |
| EpisodeComparison.AscendingUnique | src/features/episodes/hooks/useEpisodeComparison.ts:39 | two strictly ascending lists with the same elements are equal, so the request depends only on the id sets |
| EpisodeComparison.FetchEnabledOfUnion | src/features/episodes/hooks/useEpisodeComparison.ts:48 | `FetchEnabled` on the union holds iff either character has an episode id and a comparison key is set |
| EpisodeComparison.QueryFn | src/features/episodes/hooks/useEpisodeComparison.ts:40-47 | an empty id list gives `[]` whatever the endpoint would answer. A failure is either a validation error or the fetch's own error passed through, and a fetch failure always passes through. An array response succeeds iff every item validates, and then gives the validated items in order. A bare object gives a one-element list iff it validates |
| EpisodeComparison.Partition | src/features/episodes/hooks/useEpisodeComparison.ts:52-62 | with nothing fetched, all columns are empty. Each column is a subsequence of the fetched list. An episode appears in `left`, `middle` or `right` exactly as often as it was fetched when its id is in A only, both, or B only respectively, and otherwise not at all |
| EpisodeComparison.PartitionDisjoint | src/features/episodes/hooks/useEpisodeComparison.ts:58-60 | no episode id occurs in two columns |
| EpisodeComparison.PartitionCovers | src/features/episodes/hooks/useEpisodeComparison.ts:58-60 | a fetched episode whose id is in A or B lands in exactly one column; one in neither lands in none |
| EpisodeComparison.PartitionOfNothing | src/features/episodes/hooks/useEpisodeComparison.ts:53-55 | an undefined or empty episode list gives three empty columns |
| EpisodeComparison.UseEpisodeComparison | src/features/episodes/hooks/useEpisodeComparison.ts:24-62 | a request is made iff the id union is non-empty and `compareKey` is set. The request is strictly ascending and holds exactly `idsA ∪ idsB`. Without a request the columns are empty. On success the columns are the partition of the normalised episodes; on failure they are empty and the error is reported |
| EpisodeComparison.PartitionExample | __tests__/integration/useEpisodeComparison.test.tsx:119-145 | with A = {1,2,3}, B = {2,3,4} and episodes 1..4, the columns are [1], [2,3], [4] |
| EpisodeComparison.CategorizationExample | __tests__/integration/useEpisodeComparison.test.tsx:119-145 | the same scenario, starting from the characters' episode URLs |
| EpisodeComparison.RequestExample | __tests__/integration/useEpisodeComparison.test.tsx:147-168 | for those characters, the only request the hook can make is the id list 1, 2, 3, 4 |
| EpisodeComparison.SingleObjectExample | __tests__/integration/useEpisodeComparison.test.tsx:170-194 | A in episode 1 and B in none: the request is [1], a bare-object response becomes a one-element list, and that episode lands in `left` |
| Csv.CsvText | src/lib/csv.ts:4-15 | no output exactly when there is no data; otherwise the text starts with `ID,Name,Episode Code,Air Date` and a line feed, followed by the rows |
| Csv.RowFields | src/lib/csv.ts:8-13 | `Csv.Row` is the decimal id, the quoted name, the episode code and the air date, separated by commas |
| Csv.CsvOfOne | src/lib/csv.ts:6-15 | one episode gives the header, a line feed and its row |
| Csv.CsvAppend | src/lib/csv.ts:8-15 | one more episode appends a line feed and its row at the end |
| Csv.CsvLines | src/lib/csv.ts:8-15 | when no field holds a line break, splitting the text at line feeds gives one line more than there are episodes: the header first, then the row of episode `i` as line `i + 1`, so there is one row per episode, in input order |
| Csv.EscapeQuotesCounts | src/lib/csv.ts:10 | `Csv.EscapeQuotes` doubles every `"` and keeps every other character, so the length grows by the number of quotes |
| Csv.EscapedHasNoLoneQuote | src/lib/csv.ts:10 | the escaped name has no lone `"` |
| Csv.ReadQuotedEscaped | src/lib/csv.ts:10 | reading the quoted field back, RFC 4180 style, recovers the original name and stops at the closing quote |
| Csv.RowRoundTrip | src/lib/csv.ts:8-13 | a row reads back as its four fields, the name un-escaped, when the unquoted episode code and air date hold no comma and do not start with `"` |
| Csv.CommaInAirDateSplitsRow | src/lib/csv.ts:12 | an air date holding a comma is read back as two fields, so the row has five |
| Csv.PilotRowHasFiveFields | __tests__/integration/useEpisodeComparison.test.tsx:55 | the fixture episode "Pilot", aired "December 2, 2013", does not read back as four fields |

## Left out

- `src/schemas/episode.ts` is not part of this model. `Episode` carries the fields the hook and the export use, and validation is the parameter `validate`. The Zod checks themselves (`.url()`, enums, field types) run inside a library.
- `Schemas.Character` keeps the fields of `src/schemas/character.ts` as plain values. `status` and `gender` are enumerations, and its validation is not modelled.
- Adapters.ParseSegment covers `Number` only for the empty string and decimal digit strings. Whitespace trimming, signs, hexadecimal, exponents, fractions and `Infinity` belong to JavaScript's number grammar and are not modelled, so such segments are dropped. The model also ignores the rounding of numbers above 2^53, because ids are unbounded integers here.
- NumberText.IntToString prints an id in plain decimal. JavaScript's exponent form for very large numbers is not modelled.
- EpisodeComparison.UseEpisodeComparison covers one evaluation of the hook. These are left out:
  - `isLoading`;
  - react-query's cache, query key and `staleTime`;
  - memoisation and re-rendering;
  - the superseding of older requests.
  The HTTP call at line 44 is the parameter `fetch`, and its transport errors arrive as `Failure`.
- EpisodeComparison.SortAscending is an insertion sort. It has the same postcondition as the engine's `Array.prototype.sort` with the numeric comparator, but not the same sequence of intermediate states.
- The CSV file download (`src/lib/csv.ts`, lines 16-24) is left out: Blob, object URL and anchor click are DOM I/O. `Csv.CsvText` is the text that would be downloaded.
- The set operations are generic over types compared by value. JavaScript's `Set.has` compares objects by reference. The two agree for the numbers and strings the operations are used with, but object elements are not modelled.
- Csv.HeaderLine is the constant text of `headers.join(',')`. The four column names are not joined at run time.
- The presentation components, the HTTP client, the character listing and paging hooks, the query client and provider, and URL-to-store synchronisation are outside the modelled core.
- The model does not assume the API returns each episode once. As in the code, an episode fetched twice appears twice in its column. For that reason `EpisodeComparison.PartitionCovers` is stated per episode, not per id.
