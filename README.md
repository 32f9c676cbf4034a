# word-finder in Dafny

A model of the matching engine of *word-finder*, a console tool that loads a word list and
finds the words that satisfy character criteria (include-all, include-only, include-any,
exclude, all optionally ordered) or a regular expression. It also models the sequence helpers
that sit beside the engine: chunking and sampling (`NewExtensions`) and the comma-separated
rendering of criteria (`Extensions.Detailed`).

Modules, one per concept:

- `Wrappers`: `Option`, which stands for a C# nullable reference; `Result`; one `Error` constructor per exception kind.
- `Sequences`: `Filter`, `Take`, `Flatten` and subsequences, with the lemmas the rest uses.
- `Text`: the .NET primitives `char.IsWhiteSpace`, `string.IsNullOrWhiteSpace`, `Trim` and `string.Join`.
- `CharSets`: a `SearchValues<char>` as a `set<char>`, with `IndexOfAny`, `ContainsAny` and `ContainsAnyExcept`.
- `IncludeAll`: the include-all loop of both searches (`lastIndex`, `allLettersFound` and the early `break`) as a method. It is proved equal to a recursive `Check`. `Check` is then characterised:
  - with the order flag, as increasing positions, i.e. a subsequence;
  - without it, as "each required character occurs somewhere".
- `Criteria`: the immutable `SearchCriteria` value and its two constructors. A regular expression is an opaque predicate on words. Compiling a pattern is a function parameter that answers `None` for a malformed pattern.
- `WordStore`: the class `WordDictionary`, whose field `wordsByLength` is a map from length to bucket.
  - `LoadWords` updates the map in a loop. It is proved against the function `Loaded`.
  - Each search method is proved equal to `Filter(Words(), rule)`. `Words()` is every bucket in ascending length order, and each overload has its own rule.
  - Lemmas state what the rules mean character by character, how the two overloads differ, and the order of the results.
- `NewExtensions`:
  - `ChunkedIn` and `SamplesByChunk` are functions.
  - The three sampling iterators and `CollectSamples` are methods with loops.
  - The enumerable iterator keeps its growing, resized array.
  - The dispatch in `ChunkForSample` is a method over the run-time kind of the source.
- `Extensions`: the three `Detailed` overloads.

Behaviour worth knowing, as the code has it:

- Without the order flag, `lastIndex` stays at -1. Each required character then only has to occur somewhere, so "ss" is met by a single 's' (`IncludeAll.RepeatedLetter`).
- With the order flag, any word holding an 's', a later 't' and a later 'r' passes "str". The code accepts "sectoring" and "rooster" beside "strike" and "streak", and rejects "retires" (`IncludeAll.OrderedStrMatches`, `IncludeAll.RetiresFailsOrderedStr`).
- `Search(string?, ...)` applies the include-only whitelist and then the other filters. `Search(SearchCriteria)` treats a regex, and then a non-empty whitelist, as exclusive modes (`WordStore.TwoVersions`).
- A non-null empty include string builds the empty set, and no word passes it (`WordStore.EmptyIncludeRejectsAll`).
- `ChunkForSample` behaves differently when `maxSamples <= 0`:
  - From an array or a collection it yields whole blocks (`NewExtensions.WholeBlocks`).
  - From a plain enumerable it fails on its first allocation (a negative size) or its first store (an empty array).

## Model

| member | source | states |
|---|---|---|
| CharSets.IndexOfAnyFirst | WordFinder/WordDictionary.cs:109 | `IndexOfAny` gives the first position holding a character of the set, and -1 exactly when no character of the word is in it |
| CharSets.ContainsAnyMeaning | WordFinder/WordDictionary.cs:93-100 | a word meets the set (`IndexOfAny != -1`) iff one of its characters is in the set |
| CharSets.ContainsAnyExcept | WordFinder/WordDictionary.cs:87 | true iff some character of the word is not among the given values |
| CharSets.Singletons | WordFinder/WordDictionary.cs:72 | one single-character set per input character, in order, repeats kept |
| Text.TrimStartShape | WordFinder/Extensions.cs:11 | `TrimStart` keeps a suffix of its input, removes only white space, and the kept part does not start with white space |
| Text.TrimEndShape | WordFinder/Extensions.cs:11 | `TrimEnd` keeps a prefix of its input, removes only white space, and the kept part does not end with white space |
| Text.Trim | WordFinder/Extensions.cs:7-11 | the trimmed string neither starts nor ends with white space, and it is empty iff the input is all white space |
| Text.TrimFactor | WordFinder/Extensions.cs:11 | `Trim` keeps a contiguous factor of its input and removes only white space before and after it |
| Text.JoinAt | WordFinder/Extensions.cs:11 | `string.Join` puts element i at its offset, followed by the separator unless it is the last element |
| Text.JoinSuffix | WordFinder/Extensions.cs:11 | from the offset of element i on, the joined string is the join of the elements from i on |
| Text.JoinLength | WordFinder/Extensions.cs:11 | a non-empty join ends right after its last element |
| IncludeAll.AllLettersFound | WordFinder/WordDictionary.cs:104-119 | the loop with `lastIndex` and the early exit returns exactly `Check(word, required, ordered)` |
| IncludeAll.CheckFromStep | WordFinder/WordDictionary.cs:107-118 | the check from set k passes iff set k is found after `lastIndex` and the check of the later sets passes from the new `lastIndex` |
| IncludeAll.MatchedCons | WordFinder/WordDictionary.cs:109-118 | a match of the first set followed by later matches of the rest is a match of all the sets |
| IncludeAll.OrderedSound | WordFinder/WordDictionary.cs:104-119 | when the ordered check passes from `lastIndex`, the required sets are met at strictly increasing positions after `lastIndex` |
| IncludeAll.OrderedComplete | WordFinder/WordDictionary.cs:104-119 | strictly increasing matching positions after `lastIndex` make the ordered check pass |
| IncludeAll.OrderedIff | WordFinder/WordDictionary.cs:104-119 | ordered: a word passes iff each required set is met at strictly increasing positions |
| IncludeAll.OrderedIsSubsequence | WordFinder/WordDictionary.cs:104-119 | ordered, with one single-character set per input character: a word passes iff the input is a subsequence of it |
| IncludeAll.UnorderedIff | WordFinder/WordDictionary.cs:207-222 | unordered: a word passes iff it contains some character of every required set |
| IncludeAll.UnorderedContainsEach | WordFinder/WordDictionary.cs:104-119 | unordered, per-character sets: a word passes iff every input character occurs in it |
| IncludeAll.RepeatedLetter | WordFinder/WordDictionary.cs:115-118 | "s" meets "ss" unordered but not ordered; "sis" meets it ordered |
| IncludeAll.StrAt | WordFinder/WordDictionary.cs:104-119 | an 's', a later 't' and a later 'r' make a word pass ordered "str" |
| IncludeAll.OrderedStrMatches | WordFinder/WordDictionary.cs:104-119 | strike, streak, sectoring and rooster pass ordered "str" |
| IncludeAll.RetiresFailsOrderedStr | WordFinder/WordDictionary.cs:109-113 | retires fails ordered "str": no 't' follows its only 's' |
| Criteria.FromInputs | WordFinder/SearchCriteria.cs:11-18 | no regex; include-all is null iff its input is, else one singleton set per input character in order; exclude and include are null iff their inputs are, else exactly the input's characters; order flag as given; `SpanIncludeOnly()` is the include-only input or empty |
| Criteria.FromRegex | WordFinder/SearchCriteria.cs:7-10 | fails iff the pattern does not compile; otherwise only the regex is set (agreeing with the compiled pattern), the other criteria are null, the order flag false, `SpanIncludeOnly()` empty |
| Criteria.SearchCriteria.SpanIncludeOnly | WordFinder/SearchCriteria.cs:27 | empty when no include-only string was given, otherwise that string |
| WordStore.WordDictionary.constructor | WordFinder/WordDictionary.cs:12-16 | the store starts empty, with the given path, and satisfies the store invariant |
| WordStore.WordDictionary.LoadWords | WordFinder/WordDictionary.cs:27-41 | keeps the store invariant (every bucket non-empty and holding only words of its length) and leaves the buckets equal to `Loaded(old buckets, lines, min, max)` |
| WordStore.LoadedBucket | WordFinder/WordDictionary.cs:27-41 | after a load, bucket L is the old bucket followed by the lines of length L in input order, duplicates kept, when min ≤ L ≤ max, and unchanged otherwise |
| WordStore.LoadedKeys | WordFinder/WordDictionary.cs:34-38 | a length has a bucket after a load iff it had one before or some loaded line within [min, max] has that length |
| WordStore.LoadedWellFormed | WordFinder/WordDictionary.cs:27-41 | loading preserves "no empty bucket, every word in bucket L has length L" |
| WordStore.FreshLoad | WordFinder/WordDictionary.cs:27-41 | loading into an empty store gives buckets only for lengths in [min, max], each holding exactly the lines of its length in input order |
| WordStore.WordDictionary.GetWordsByLength | WordFinder/WordDictionary.cs:44-47 | the bucket of the length, or the empty list when it has none |
| WordStore.WordDictionary.GetAvailableLengths | WordFinder/WordDictionary.cs:49-52 | the lengths with buckets, strictly ascending, each once |
| WordStore.SortedKeys | WordFinder/WordDictionary.cs:51 | a set of keys in strictly ascending order, holding exactly the set's members |
| WordStore.ConcatByLength | WordFinder/WordDictionary.cs:78-80 | well-formed buckets concatenated in ascending length order list the words by non-decreasing length |
| WordStore.ConcatMembers | WordFinder/WordDictionary.cs:78-80 | a word is among the concatenated buckets iff it is in the bucket of one of the lengths |
| WordStore.PassesComplementary | WordFinder/WordDictionary.cs:93-124 | the exclude, include and include-all guards with their early exits accept exactly the words meeting `Complementary` |
| WordStore.WordDictionary.Search | WordFinder/WordDictionary.cs:54-129 | the matches are `Filter(Words(), rule)`: the stored words in scan order that pass the whitelist (when non-empty) and then the other filters |
| WordStore.WordDictionary.SearchWithRegex | WordFinder/WordDictionary.cs:131-153 | a null or blank pattern is an argument error, a malformed one fails to compile, otherwise the matches are the stored words the regex accepts, in scan order |
| WordStore.WordDictionary.SearchByCriteria | WordFinder/WordDictionary.cs:155-232 | the matches are the stored words in scan order accepted by the criteria's mode: regex, else non-empty whitelist, else the complementary filters |
| WordStore.ScanInputs | WordFinder/WordDictionary.cs:81-126 | the string overload's scan of a bucket keeps exactly the words passing the non-empty whitelist and then the other filters, in order |
| WordStore.ScanRegex | WordFinder/WordDictionary.cs:166-176 | the regex-mode scan of a bucket keeps exactly the words the regex accepts, in order |
| WordStore.ScanIncludeOnly | WordFinder/WordDictionary.cs:178-189 | the include-only scan of a bucket keeps exactly the words with no character outside the whitelist, in order |
| WordStore.ScanComplementary | WordFinder/WordDictionary.cs:191-229 | the complementary scan of a bucket keeps exactly the words meeting exclude, include and include-all, in order |
| WordStore.ComplementaryMeaning | WordFinder/WordDictionary.cs:93-124 | a word passes iff it has no excluded character, has some included character, and meets include-all (increasing positions when ordered, some character of each set otherwise) |
| WordStore.InputsMeaning | WordFinder/WordDictionary.cs:85-125 | the string overload accepts a word iff: every character is whitelisted (when the whitelist is non-empty); no excluded character; some included one; include-all is a subsequence (ordered) or each of its characters occurs (unordered) |
| WordStore.CriteriaModes | WordFinder/WordDictionary.cs:166-229 | with a regex, a word is matched iff stored and accepted by the regex; else with a non-empty whitelist iff stored and all its characters are whitelisted; else iff stored and meeting the complementary filters |
| WordStore.EmptyIncludeRejectsAll | WordFinder/WordDictionary.cs:97-100 | a non-null empty include string makes both searches return nothing (the criteria search when no whitelist applies) |
| WordStore.EmptyIncludeAllImposesNothing | WordFinder/WordDictionary.cs:102-124 | an empty include-all string accepts the same words as none at all |
| WordStore.TwoVersions | WordFinder/WordDictionary.cs:85-100 | on the same inputs, the two overloads agree without a whitelist; with one, the string overload's matches are the criteria overload's matches filtered again by the complementary criteria |
| WordStore.SearchCounts | WordFinder/WordDictionary.cs:78-127 | every match satisfies the search rule, and each stored word that satisfies it is matched exactly as many times as it is stored; no other word is matched |
| WordStore.SearchOrder | WordFinder/WordDictionary.cs:78-127 | a search result is a subsequence of all the words in bucket order and is ordered by non-decreasing length |
| NewExtensions.CeilDiv | WordFinder/NewExtensions.cs:31 | the ceiling of n / d: the r with (r - 1)·d < n ≤ r·d |
| NewExtensions.CeilDivUnique | WordFinder/NewExtensions.cs:31 | the ceiling is the only r with (r - 1)·d < n ≤ r·d |
| NewExtensions.CeilDivStep | WordFinder/NewExtensions.cs:31 | removing one block of d elements, or all when fewer remain, lowers the ceiling by one |
| NewExtensions.ChunkShape | WordFinder/NewExtensions.cs:32 | `Enumerable.Chunk`: the blocks flatten back to the source, each has 1 to `size` elements, all but the last exactly `size` |
| NewExtensions.ChunkCount | WordFinder/NewExtensions.cs:31-32 | there are ⌈n / size⌉ blocks |
| NewExtensions.ChunkAt | WordFinder/NewExtensions.cs:32 | block i starts inside the source, at `BlockStart(i, size)`, and is the source slice from there to `size` elements further or the end, whichever comes first |
| NewExtensions.BlockStartIsProduct | WordFinder/NewExtensions.cs:32 | block i starts at i·size |
| NewExtensions.AtMostChunks | WordFinder/NewExtensions.cs:31 | blocks of ⌈n / chunks⌉ elements number at most `chunks` |
| NewExtensions.ChunkedIn | WordFinder/NewExtensions.cs:20-33 | chunks < 1 is an argument error; otherwise non-empty blocks that flatten back to the source, each of at most ⌈n / chunks⌉ elements and all but the last of exactly that size; there are ⌈n / ⌈n / chunks⌉⌉ of them, which is at most `chunks` (none for an empty source) |
| NewExtensions.Firsts | WordFinder/NewExtensions.cs:97 | the first element of each block, in order |
| NewExtensions.TakeFirsts | WordFinder/NewExtensions.cs:97 | the first elements of the first k blocks are the source elements at multiples of the block size |
| NewExtensions.SamplesByChunk | WordFinder/NewExtensions.cs:95-98 | chunks < 1 is an argument error; otherwise at most `chunks` and at most `maxSamples` items; item i is the source element at i·⌈n / chunks⌉; as many items as blocks, capped by `maxSamples` |
| NewExtensions.SampleChunksOfChunk | WordFinder/NewExtensions.cs:107-116 | sampled chunk i is a prefix of block i, of length min(sampleSize, block length), or the whole block when sampleSize ≤ 0 |
| NewExtensions.WholeBlocks | WordFinder/NewExtensions.cs:110 | with sampleSize ≤ 0 the sampled chunks are the blocks themselves |
| NewExtensions.SampleChunksStep | WordFinder/NewExtensions.cs:109-114 | one iterator step yields the `allockSize` elements at `index` and leaves the rest after `index + blockSize` |
| NewExtensions.IteratorStep | WordFinder/NewExtensions.cs:107-116 | one pass of the loop keeps "the chunks yielded so far, then the samples of the rest, are all the sampled chunks", with the index still within the source |
| NewExtensions.IteratorDone | WordFinder/NewExtensions.cs:107 | once the index reaches the end, the chunks yielded are all the sampled chunks |
| NewExtensions.ArrayChunkIteratorForSample | WordFinder/NewExtensions.cs:102-117 | yields `SampleChunks(source, size, sampleSize)`: the sample of each block, in order |
| NewExtensions.CollectionChunkIteratorForSample | WordFinder/NewExtensions.cs:119-136 | yields the same chunks as the array iterator on the same elements |
| NewExtensions.SkipTake | WordFinder/NewExtensions.cs:130 | `Skip(index).Take(k)` within bounds is the slice from index to index + k |
| NewExtensions.Resize | WordFinder/NewExtensions.cs:166 | a fresh array of the new length beginning with the old elements, the slots past them holding the filler |
| NewExtensions.ReadSample | WordFinder/NewExtensions.cs:148-187 | the growing, resized array ends holding exactly the next min(sampleSize, remaining) items, starting at the current one |
| NewExtensions.SkipRest | WordFinder/NewExtensions.cs:189-192 | the skip loop stops at the end of the block or of the source: the block's length in items read, with the enumerator just past them |
| NewExtensions.ReadBlock | WordFinder/NewExtensions.cs:152-192 | one pass of the do-loop yields the next min(sampleSize, remaining) items and consumes the whole block, leaving an array size between 1 and sampleSize |
| NewExtensions.SampleBlockStep | WordFinder/NewExtensions.cs:150-197 | after one pass of the do-loop, the chunks yielded so far and the samples of the rest are all the sampled chunks |
| NewExtensions.SampleBlocks | WordFinder/NewExtensions.cs:150-197 | on a non-empty source with a positive sample size, the do-loop yields `SampleChunks(source, size, sampleSize)`, the same chunks as the array iterator |
| NewExtensions.EnumerableChunkIteratorForSample | WordFinder/NewExtensions.cs:138-199 | for sampleSize > 0 (or an empty source), yields the same chunks as the array iterator; a non-empty source with sampleSize < 0 or = 0 fails with an overflow or an index-out-of-range error |
| NewExtensions.ChunkForSample | WordFinder/NewExtensions.cs:46-93 | chunks < 1 is an argument error; an empty source gives no chunks; otherwise the samples of min(size, maxSamples) from blocks of ⌈n / chunks⌉, except that a plain enumerable with maxSamples ≤ 0 fails |
| NewExtensions.CollectSamples | WordFinder/NewExtensions.cs:216-226 | yields the first min(k, length) items of every chunk, chunk after chunk |
| NewExtensions.CollectedCons | WordFinder/NewExtensions.cs:219-225 | collecting from a leading chunk and the rest is that chunk's first k items and then the rest's |
| NewExtensions.CollectedNothing | WordFinder/NewExtensions.cs:221 | a non-positive k collects nothing |
| NewExtensions.CollectedEverything | WordFinder/NewExtensions.cs:221 | when no chunk is longer than k, everything is collected, in order |
| NewExtensions.CollectedChunks | WordFinder/NewExtensions.cs:221 | collecting `size` items per block of `Chunk(src, size)` gives back the source |
| NewExtensions.SamplesAreCollected | WordFinder/NewExtensions.cs:36-43 | for sampleSize > 0, the flattened sampled chunks equal `CollectSamples(sampleSize)` of the plain blocks |
| Extensions.Characters | WordFinder/Extensions.cs:11 | one one-character string per character, in order |
| Extensions.UniformOffset | WordFinder/Extensions.cs:11 | with one-character elements and a two-character separator, element i starts at 3·i |
| Extensions.JoinedCharacters | WordFinder/Extensions.cs:11 | the characters joined by ", " have length 3n - 2, character i at 3·i and ", " between consecutive ones |
| Extensions.DetailedString | WordFinder/Extensions.cs:5-12 | "" for a null, empty or blank input; otherwise the trimmed characters separated by ", ", length 3n - 2 |
| Extensions.DetailedArray | WordFinder/Extensions.cs:13-20 | "" for a null or empty array; otherwise each element in order at its offset, followed by ", " unless last, with the total length of the elements plus the separators, and a single element unchanged |
| Extensions.DetailedEnumerable | WordFinder/Extensions.cs:21-28 | "" for an empty sequence; otherwise each element in order at its offset, followed by ", " unless last, with the total length of the elements plus the separators |

## Left out

- File access in `LoadWords` (`File.Exists`, `File.ReadAllLines`, the missing-file exception): the lines of the file are a parameter.
- The `Console.WriteLine` diagnostics at the start of `Search(string?, ...)`: logging only.
- The .NET regex engine: a regex is an opaque predicate and compiling is a parameter; regex syntax is not modelled.
- `SearchValues<char>` and `ReadOnlySpan<char>`: modelled as sets of characters and sequences.
- UTF-16: one model `char` stands for one UTF-16 code unit of a C# string. A Dafny `char` is a Unicode scalar value, so text outside the Basic Multilingual Plane is not modelled. In C# a character such as U+1F600 is two code units: it counts as 2 in `word.Length` when `LoadWords` picks a bucket, and it becomes two one-surrogate sets when an include-all string is compiled. The model would count it once and build one set.
- Null arguments: the `ArgumentNullException` guards on `source`, `chunks` and `criteria`, and a null `strRegex` passed to `new Regex`. A null element inside the array given to `Detailed(string[]?)` or the sequence given to `Detailed(IEnumerable<string>)`, which `string.Join` renders as empty, is not modelled either.
- `Detailed(IEnumerable<string>)` with a null argument: its parameter type is non-nullable, so the model takes a sequence.
- Aliasing: `GetWordsByLength` returns the live bucket list, and the model returns its value.
- Deferred execution: the iterators and LINQ pipelines are lazy in the source. The model computes the whole sequence eagerly, so it does not capture when an iterator's exception surfaces. Yielded `T[]` chunks are sequences.
- `Math.Ceiling` over `double`: modelled as integer ceiling division; rounding for counts beyond 2^53 is not modelled.
- 32-bit integers: counts and indexes are unbounded. Nothing in the modelled paths reaches the `int` or `uint` limits below 2^31 elements.
- The enumerable iterator's enumerator is a position in a sequence. A source that changes while it is enumerated, or whose enumeration is not repeatable (`Any` and `Count` enumerate it too), is not modelled.
- `Debug.Assert` in the enumerable iterator: not part of the modelled behaviour.
- The enumerable iterator's failures on a non-positive array size are decided once, before its do-loop (`SampleBlocks`). Only the first pass can allocate such an array, because later passes reuse a size between 1 and `sampleSize`.
- NewExtensions.EnumerableChunkIteratorForSample: requires `sampleSize <= size`, which its only caller guarantees by passing `Math.Min(size, maxSamples)`. With a larger sample size it would read past its block.
- `WordFinder/Program.cs`: command-line parsing, console layout, culture-sensitive sorting and interactive input.
- `Benchmarks/Benchmarks.cs`, including `AddWordDummy`: file-reading benchmarks.
