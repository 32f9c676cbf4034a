/**
 * The word store and the search engine: `WordDictionary` keeps the loaded words in buckets
 * keyed by length and scans them in ascending length order against the search rules.
 */
module WordStore {
  import opened Wrappers
  import opened Sequences
  import opened Text
  import opened CharSets
  import opened Criteria
  import IncludeAll

  /** `TryGetValue`, with the empty list for a length that has no bucket. */
  function Bucket(buckets: map<int, seq<string>>, length: int): seq<string>
  {
    if length in buckets then buckets[length] else []
  }

  /** The store invariant: every bucket is non-empty and holds words of its own length only. */
  ghost predicate WellFormed(buckets: map<int, seq<string>>)
  {
    forall length :: length in buckets ==>
      buckets[length] != [] && forall w :: w in buckets[length] ==> |w| == length
  }

  /** The words of exactly `length` characters. */
  function HasLength(length: int): string -> bool
  {
    w => |w| == length
  }

  /** The length of a word, as a key for ordering. */
  function WordLength(): string -> int
  {
    w => |w|
  }

  /** One step of the loading loop: a word inside `[min, max]` is appended to its bucket, created on first use. */
  function AddLine(buckets: map<int, seq<string>>, word: string, min: int, max: int): map<int, seq<string>>
  {
    if |word| < min || |word| > max then buckets
    else buckets[|word| := Bucket(buckets, |word|) + [word]]
  }

  /** The buckets after loading `lines` in order. */
  function Loaded(buckets: map<int, seq<string>>, lines: seq<string>, min: int, max: int): map<int, seq<string>>
    decreases |lines|
  {
    if lines == [] then buckets
    else AddLine(Loaded(buckets, lines[..|lines| - 1], min, max), lines[|lines| - 1], min, max)
  }

  /** Bucket `length` after a load is the old bucket followed by the loaded lines of that length, in input order. */
  lemma {:induction false} LoadedBucket(buckets: map<int, seq<string>>, lines: seq<string>, min: int, max: int, length: int)
    ensures Bucket(Loaded(buckets, lines, min, max), length)
            == Bucket(buckets, length) + (if min <= length <= max then Filter(lines, HasLength(length)) else [])
    decreases |lines|
  {
    if lines != [] {
      var init, last := lines[..|lines| - 1], lines[|lines| - 1];
      LoadedBucket(buckets, init, min, max, length);
    }
  }

  /** A length has a bucket after a load iff it had one before or some loaded line in range has that length. */
  lemma {:induction false} LoadedKeys(buckets: map<int, seq<string>>, lines: seq<string>, min: int, max: int, length: int)
    ensures length in Loaded(buckets, lines, min, max)
            <==> length in buckets || (min <= length <= max && exists i :: 0 <= i < |lines| && |lines[i]| == length)
    decreases |lines|
  {
    if lines != [] {
      var init, last := lines[..|lines| - 1], lines[|lines| - 1];
      LoadedKeys(buckets, init, min, max, length);
      assert forall i :: 0 <= i < |init| ==> init[i] == lines[i];
    }
  }

  /** Loading keeps the store invariant. */
  lemma {:induction false} LoadedWellFormed(buckets: map<int, seq<string>>, lines: seq<string>, min: int, max: int)
    requires WellFormed(buckets)
    ensures WellFormed(Loaded(buckets, lines, min, max))
    decreases |lines|
  {
    if lines != [] {
      LoadedWellFormed(buckets, lines[..|lines| - 1], min, max);
    }
  }

  /** Loading into an empty store: only lengths in `[min, max]` have buckets, and each bucket is the lines of its length. */
  lemma FreshLoad(lines: seq<string>, min: int, max: int)
    ensures var loaded := Loaded(map[], lines, min, max);
            && WellFormed(loaded)
            && (forall length :: length in loaded ==> min <= length <= max && loaded[length] == Filter(lines, HasLength(length)))
  {
    var loaded := Loaded(map[], lines, min, max);
    LoadedWellFormed(map[], lines, min, max);
    forall length | length in loaded
      ensures min <= length <= max && loaded[length] == Filter(lines, HasLength(length))
    {
      LoadedKeys(map[], lines, min, max, length);
      LoadedBucket(map[], lines, min, max, length);
    }
  }

  lemma NonEmpty(keys: set<int>)
    requires keys != {}
    ensures exists y :: y in keys
  {
    if forall y :: y !in keys {
      assert false;
    }
  }

  predicate IsLeast(least: int, keys: set<int>)
  {
    least in keys && forall k :: k in keys ==> least <= k
  }

  lemma LeastOfInsert(x: int, rest: set<int>, least: int)
    requires IsLeast(least, rest)
    ensures IsLeast(if x < least then x else least, rest + {x})
  {
  }

  lemma {:induction false} MinimumExists(keys: set<int>)
    requires keys != {}
    ensures exists least :: IsLeast(least, keys)
    decreases |keys|
  {
    NonEmpty(keys);
    var x :| x in keys;
    var rest := keys - {x};
    assert keys == rest + {x};
    if rest == {} {
      assert IsLeast(x, keys);
    } else {
      MinimumExists(rest);
      var least :| IsLeast(least, rest);
      LeastOfInsert(x, rest, least);
    }
  }

  /** `Keys.OrderBy(k => k)`: the keys in strictly ascending order, each exactly once. */
  function SortedKeys(keys: set<int>): (r: seq<int>)
    ensures forall i, j :: 0 <= i < j < |r| ==> r[i] < r[j]
    ensures forall k :: k in r <==> k in keys
    decreases |keys|
  {
    if keys == {} then []
    else
      MinimumExists(keys);
      var least :| IsLeast(least, keys);
      [least] + SortedKeys(keys - {least})
  }

  /** The buckets of `lengths`, concatenated in that order. */
  function Concat(buckets: map<int, seq<string>>, lengths: seq<int>): seq<string>
    decreases |lengths|
  {
    if lengths == [] then []
    else Concat(buckets, lengths[..|lengths| - 1]) + Bucket(buckets, lengths[|lengths| - 1])
  }

  /** The words are listed by non-decreasing length. */
  ghost predicate ByLength(words: seq<string>)
  {
    forall i, j :: 0 <= i < j < |words| ==> |words[i]| <= |words[j]|
  }

  /** No word is longer than `bound`. */
  ghost predicate NoLongerThan(words: seq<string>, bound: int)
  {
    forall i :: 0 <= i < |words| ==> |words[i]| <= bound
  }

  /** Concatenating well-formed buckets in ascending key order lists the words by non-decreasing length. */
  lemma {:induction false} ConcatByLength(buckets: map<int, seq<string>>, lengths: seq<int>)
    requires WellFormed(buckets)
    requires forall i, j :: 0 <= i < j < |lengths| ==> lengths[i] < lengths[j]
    ensures ByLength(Concat(buckets, lengths))
    ensures lengths != [] ==> NoLongerThan(Concat(buckets, lengths), lengths[|lengths| - 1])
    decreases |lengths|
  {
    if lengths != [] {
      var init, last := lengths[..|lengths| - 1], lengths[|lengths| - 1];
      ConcatByLength(buckets, init);
      var front, back := Concat(buckets, init), Bucket(buckets, last);
      assert Concat(buckets, lengths) == front + back;
      forall i | 0 <= i < |back| ensures |back[i]| == last {
        assert back[i] in buckets[last];
      }
      if init == [] {
        assert front == [];
      } else {
        assert init[|init| - 1] < last;
        assert NoLongerThan(front, init[|init| - 1]);
      }
      assert forall i :: 0 <= i < |front| ==> |front[i]| < last;
      ByLengthConcat(front, back, last);
    }
  }

  lemma ByLengthConcat(front: seq<string>, back: seq<string>, last: int)
    requires ByLength(front)
    requires forall i :: 0 <= i < |front| ==> |front[i]| < last
    requires forall i :: 0 <= i < |back| ==> |back[i]| == last
    ensures ByLength(front + back) && NoLongerThan(front + back, last)
  {
    var c := front + back;
    forall i, j | 0 <= i < j < |c| ensures |c[i]| <= |c[j]| {
      if j < |front| {
        assert c[i] == front[i] && c[j] == front[j];
      } else if i < |front| {
        assert c[i] == front[i] && c[j] == back[j - |front|];
      } else {
        assert c[i] == back[i - |front|] && c[j] == back[j - |front|];
      }
    }
    forall i | 0 <= i < |c| ensures |c[i]| <= last {
      if i < |front| { assert c[i] == front[i]; } else { assert c[i] == back[i - |front|]; }
    }
  }

  lemma ConcatSnoc(buckets: map<int, seq<string>>, lengths: seq<int>, i: nat)
    requires i < |lengths|
    ensures Concat(buckets, lengths[..i + 1]) == Concat(buckets, lengths[..i]) + Bucket(buckets, lengths[i])
  {
    assert lengths[..i + 1][..i] == lengths[..i];
  }

  /** A word is among the concatenated buckets iff it is in the bucket of one of the lengths. */
  lemma {:induction false} ConcatMembers(buckets: map<int, seq<string>>, lengths: seq<int>, w: string)
    ensures w in Concat(buckets, lengths) <==> exists i :: 0 <= i < |lengths| && w in Bucket(buckets, lengths[i])
    decreases |lengths|
  {
    if lengths != [] {
      var init := lengths[..|lengths| - 1];
      ConcatMembers(buckets, init, w);
      assert forall i :: 0 <= i < |init| ==> init[i] == lengths[i];
    }
  }

  /** The exclude, include and include-all filters, shared by both `Search` overloads. */
  predicate Complementary(word: string, exclude: Option<set<char>>, includeAny: Option<set<char>>,
                          includeAll: Option<seq<set<char>>>, includeOrder: bool)
  {
    && (exclude.Some? ==> !ContainsAny(word, exclude.value))
    && (includeAny.Some? ==> ContainsAny(word, includeAny.value))
    && (includeAll.Some? ==> IncludeAll.Check(word, includeAll.value, includeOrder))
  }

  /** The per-word guards of both `Search` overloads after the mode checks, with the early exits of the source's `continue`s. */
  method PassesComplementary(word: string, exclude: Option<set<char>>, includeAny: Option<set<char>>,
                             includeAll: Option<seq<set<char>>>, includeOrder: bool) returns (pass: bool)
    ensures pass == Complementary(word, exclude, includeAny, includeAll, includeOrder)
  {
    if exclude != None && ContainsAny(word, exclude.value) {
      return false;
    }
    if includeAny != None && !ContainsAny(word, includeAny.value) {
      return false;
    }
    if includeAll != None {
      var allLettersFound := IncludeAll.AllLettersFound(word, includeAll.value, includeOrder);
      if !allLettersFound {
        return false;
      }
    }
    return true;
  }

  /** The rules of `Search(string?, string?, string?, string?, bool)`: the whitelist and then the other filters. */
  predicate InputsMatch(word: string, inputIncludeAll: Option<string>, inputIncludeOnly: Option<string>,
                        inputInclude: Option<string>, inputExclude: Option<string>, includeOrder: bool)
  {
    var spanIncludeOnly := if inputIncludeOnly.Some? then inputIncludeOnly.value else [];
    && (spanIncludeOnly != [] ==> !ContainsAnyExcept(word, spanIncludeOnly))
    && Complementary(word,
         if inputExclude.Some? then Some(CharSet(inputExclude.value)) else None,
         if inputInclude.Some? then Some(CharSet(inputInclude.value)) else None,
         if inputIncludeAll.Some? then Some(Singletons(inputIncludeAll.value)) else None,
         includeOrder)
  }

  function InputsRule(inputIncludeAll: Option<string>, inputIncludeOnly: Option<string>,
                      inputInclude: Option<string>, inputExclude: Option<string>, includeOrder: bool): string -> bool
  {
    w => InputsMatch(w, inputIncludeAll, inputIncludeOnly, inputInclude, inputExclude, includeOrder)
  }

  /** The include-only mode: no character of the word lies outside the whitelist. */
  function IncludeOnlyRule(spanIncludeOnly: string): string -> bool
  {
    w => !ContainsAnyExcept(w, spanIncludeOnly)
  }

  function ComplementaryRule(exclude: Option<set<char>>, includeAny: Option<set<char>>,
                             includeAll: Option<seq<set<char>>>, includeOrder: bool): string -> bool
  {
    w => Complementary(w, exclude, includeAny, includeAll, includeOrder)
  }

  /** The rules of `Search(SearchCriteria)`: regex, include-only and the complementary criteria are exclusive modes. */
  function CriteriaRule(criteria: SearchCriteria): string -> bool
  {
    if criteria.regex.Some? then criteria.regex.value
    else if criteria.SpanIncludeOnly() != [] then IncludeOnlyRule(criteria.SpanIncludeOnly())
    else ComplementaryRule(criteria.exclude, criteria.includeAny, criteria.includeAll, criteria.includeOrder)
  }

  /**
   * The scan of one bucket by `Search(string?, string?, string?, string?, bool)`, given the sets
   * it derives from its inputs once: the whitelist first, then the other filters.
   */
  method ScanInputs(words: seq<string>, spanIncludeOnly: string, exclude: Option<set<char>>, includeAny: Option<set<char>>,
                    includeAll: Option<seq<set<char>>>, includeOrder: bool,
                    inputIncludeAll: Option<string>, inputIncludeOnly: Option<string>,
                    inputInclude: Option<string>, inputExclude: Option<string>) returns (found: seq<string>)
    requires spanIncludeOnly == if inputIncludeOnly.Some? then inputIncludeOnly.value else []
    requires exclude == if inputExclude.Some? then Some(CharSet(inputExclude.value)) else None
    requires includeAny == if inputInclude.Some? then Some(CharSet(inputInclude.value)) else None
    requires includeAll == if inputIncludeAll.Some? then Some(Singletons(inputIncludeAll.value)) else None
    ensures found == Filter(words, InputsRule(inputIncludeAll, inputIncludeOnly, inputInclude, inputExclude, includeOrder))
  {
    ghost var rule := InputsRule(inputIncludeAll, inputIncludeOnly, inputInclude, inputExclude, includeOrder);
    found := [];
    for j := 0 to |words|
      invariant found == Filter(words[..j], rule)
    {
      var word := words[j];
      FilterStep(words, j, rule);
      if spanIncludeOnly != [] {
        if ContainsAnyExcept(word, spanIncludeOnly) {
          continue;
        }
      }
      var pass := PassesComplementary(word, exclude, includeAny, includeAll, includeOrder);
      if pass {
        found := found + [word];
      }
    }
    assert words[..|words|] == words;
  }

  /** The regex-mode scan of one bucket. */
  method ScanRegex(words: seq<string>, regex: Regex) returns (found: seq<string>)
    ensures found == Filter(words, regex)
  {
    found := [];
    for j := 0 to |words|
      invariant found == Filter(words[..j], regex)
    {
      FilterStep(words, j, regex);
      if regex(words[j]) {
        found := found + [words[j]];
      }
    }
    assert words[..|words|] == words;
  }

  /** The include-only-mode scan of one bucket. */
  method ScanIncludeOnly(words: seq<string>, spanIncludeOnly: string) returns (found: seq<string>)
    ensures found == Filter(words, IncludeOnlyRule(spanIncludeOnly))
  {
    found := [];
    for j := 0 to |words|
      invariant found == Filter(words[..j], IncludeOnlyRule(spanIncludeOnly))
    {
      FilterStep(words, j, IncludeOnlyRule(spanIncludeOnly));
      if ContainsAnyExcept(words[j], spanIncludeOnly) == false {
        found := found + [words[j]];
      }
    }
    assert words[..|words|] == words;
  }

  /** The scan of one bucket against the complementary criteria. */
  method ScanComplementary(words: seq<string>, exclude: Option<set<char>>, includeAny: Option<set<char>>,
                           includeAll: Option<seq<set<char>>>, includeOrder: bool) returns (found: seq<string>)
    ensures found == Filter(words, ComplementaryRule(exclude, includeAny, includeAll, includeOrder))
  {
    ghost var rule := ComplementaryRule(exclude, includeAny, includeAll, includeOrder);
    found := [];
    for j := 0 to |words|
      invariant found == Filter(words[..j], rule)
    {
      var word := words[j];
      FilterStep(words, j, rule);
      var pass := PassesComplementary(word, exclude, includeAny, includeAll, includeOrder);
      if pass {
        found := found + [word];
      }
    }
    assert words[..|words|] == words;
  }

  class WordDictionary {
    /** `_wordsByLength`. */
    var wordsByLength: map<int, seq<string>>
    /** `_filePath`: where the lines come from; reading the file is outside the model. */
    const filePath: string

    ghost predicate Valid()
      reads this
    {
      WellFormed(wordsByLength)
    }

    constructor (filePath: string)
      ensures Valid()
      ensures this.filePath == filePath && wordsByLength == map[]
    {
      this.filePath := filePath;
      wordsByLength := map[];
    }

    /** `LoadWords(min, max)` over the lines of the file, given here as `lines`. */
    method LoadWords(lines: seq<string>, min: int := 1, max: int := 99)
      requires Valid()
      modifies this
      ensures Valid()
      ensures wordsByLength == Loaded(old(wordsByLength), lines, min, max)
    {
      for n := 0 to |lines|
        invariant wordsByLength == Loaded(old(wordsByLength), lines[..n], min, max)
      {
        var word := lines[n];
        var length := |word|;
        assert lines[..n + 1][..n] == lines[..n];
        if length < min || length > max {
          continue;
        }
        if length !in wordsByLength {
          wordsByLength := wordsByLength[length := []];
        }
        wordsByLength := wordsByLength[length := wordsByLength[length] + [word]];
      }
      assert lines[..|lines|] == lines;
      LoadedWellFormed(old(wordsByLength), lines, min, max);
    }

    /** `GetWordsByLength`: the bucket, or the empty list when the length has none. */
    function GetWordsByLength(length: int): (words: seq<string>)
      reads this
      ensures length !in wordsByLength ==> words == []
      ensures length in wordsByLength ==> words == wordsByLength[length]
    {
      Bucket(wordsByLength, length)
    }

    /** `GetAvailableLengths`: the lengths that have a bucket, ascending. */
    function GetAvailableLengths(): (lengths: seq<int>)
      reads this
      ensures forall i, j :: 0 <= i < j < |lengths| ==> lengths[i] < lengths[j]
      ensures forall length :: length in lengths <==> length in wordsByLength
    {
      SortedKeys(wordsByLength.Keys)
    }

    /** Every stored word, bucket after bucket in ascending length order: the order the searches scan in. */
    function Words(): seq<string>
      reads this
    {
      Concat(wordsByLength, GetAvailableLengths())
    }

    /** `Search(inputIncludeAll, inputIncludeOnly, inputInclude, inputExclude, includeOrder)`. */
    method Search(inputIncludeAll: Option<string>, inputIncludeOnly: Option<string>,
                  inputInclude: Option<string>, inputExclude: Option<string>,
                  includeOrder: bool := false) returns (matches: seq<string>)
      ensures matches == Filter(Words(), InputsRule(inputIncludeAll, inputIncludeOnly, inputInclude, inputExclude, includeOrder))
    {
      var srchIncludeAll := if inputIncludeAll.Some? then Some(Singletons(inputIncludeAll.value)) else None;
      var srchExclude := if inputExclude.Some? then Some(CharSet(inputExclude.value)) else None;
      var srchInclude := if inputInclude.Some? then Some(CharSet(inputInclude.value)) else None;
      var spanIncludeOnly := if inputIncludeOnly.Some? then inputIncludeOnly.value else [];
      ghost var rule := InputsRule(inputIncludeAll, inputIncludeOnly, inputInclude, inputExclude, includeOrder);
      matches := [];
      var lengths := GetAvailableLengths();
      for i := 0 to |lengths|
        invariant matches == Filter(Concat(wordsByLength, lengths[..i]), rule)
      {
        var words := GetWordsByLength(lengths[i]);
        var found := ScanInputs(words, spanIncludeOnly, srchExclude, srchInclude, srchIncludeAll, includeOrder,
                                inputIncludeAll, inputIncludeOnly, inputInclude, inputExclude);
        ConcatSnoc(wordsByLength, lengths, i);
        FilterConcat(Concat(wordsByLength, lengths[..i]), words, rule);
        matches := matches + found;
      }
      assert lengths[..|lengths|] == lengths;
    }

    /** `SearchWithRegex(strRegex)`; `compile` stands for `new Regex(...)`, `None` for a malformed pattern. */
    method SearchWithRegex(strRegex: Option<string>, compile: string -> Option<Regex>) returns (r: Result<seq<string>>)
      ensures IsNullOrWhiteSpace(strRegex) ==> r == Err(InvalidArgument)
      ensures !IsNullOrWhiteSpace(strRegex) && compile(strRegex.value).None? ==> r == Err(InvalidPattern)
      ensures !IsNullOrWhiteSpace(strRegex) && compile(strRegex.value).Some? ==>
                r == Ok(Filter(Words(), compile(strRegex.value).value))
    {
      if IsNullOrWhiteSpace(strRegex) {
        return Err(InvalidArgument);
      }
      var compiled := compile(strRegex.value);
      if compiled.None? {
        return Err(InvalidPattern);
      }
      var regex := compiled.value;
      ghost var all := Words();
      var matches: seq<string> := [];
      var lengths := GetAvailableLengths();
      for i := 0 to |lengths|
        invariant matches == Filter(Concat(wordsByLength, lengths[..i]), regex)
      {
        var words := GetWordsByLength(lengths[i]);
        var found := ScanRegex(words, regex);
        ConcatSnoc(wordsByLength, lengths, i);
        FilterConcat(Concat(wordsByLength, lengths[..i]), words, regex);
        matches := matches + found;
      }
      assert lengths[..|lengths|] == lengths;
      assert matches == Filter(all, regex);
      r := Ok(matches);
    }

    /** `Search(SearchCriteria criteria)`. */
    method SearchByCriteria(criteria: SearchCriteria) returns (matches: seq<string>)
      ensures matches == Filter(Words(), CriteriaRule(criteria))
    {
      ghost var rule := CriteriaRule(criteria);
      matches := [];
      var lengths := GetAvailableLengths();
      for i := 0 to |lengths|
        invariant matches == Filter(Concat(wordsByLength, lengths[..i]), rule)
      {
        var words := GetWordsByLength(lengths[i]);
        ConcatSnoc(wordsByLength, lengths, i);
        var found;
        if criteria.regex != None {
          found := ScanRegex(words, criteria.regex.value);
        } else if !(criteria.SpanIncludeOnly() == []) {
          found := ScanIncludeOnly(words, criteria.SpanIncludeOnly());
        } else {
          found := ScanComplementary(words, criteria.exclude, criteria.includeAny, criteria.includeAll, criteria.includeOrder);
        }
        matches := matches + found;
        FilterConcat(Concat(wordsByLength, lengths[..i]), words, rule);
      }
      assert lengths[..|lengths|] == lengths;
    }
  }

  /** The complementary criteria in terms of the word's characters. */
  lemma ComplementaryMeaning(word: string, exclude: Option<set<char>>, includeAny: Option<set<char>>,
                             includeAll: Option<seq<set<char>>>, includeOrder: bool)
    ensures Complementary(word, exclude, includeAny, includeAll, includeOrder) <==>
              && (exclude.Some? ==> forall i :: 0 <= i < |word| ==> word[i] !in exclude.value)
              && (includeAny.Some? ==> exists i :: 0 <= i < |word| && word[i] in includeAny.value)
              && (includeAll.Some? && includeOrder ==> exists pos :: IncludeAll.MatchedAt(word, includeAll.value, pos))
              && (includeAll.Some? && !includeOrder ==>
                    forall k :: 0 <= k < |includeAll.value| ==> ContainsAny(word, includeAll.value[k]))
  {
    if exclude.Some? {
      ContainsAnyMeaning(word, exclude.value);
    }
    if includeAny.Some? {
      ContainsAnyMeaning(word, includeAny.value);
    }
    if includeAll.Some? {
      IncludeAll.OrderedIff(word, includeAll.value);
      IncludeAll.UnorderedIff(word, includeAll.value);
    }
  }

  /**
   * The rules of `Search(string?, ...)` in terms of the word's characters: within the whitelist
   * (when it is non-empty), no excluded character, some included character, and the include-all
   * string as a subsequence (ordered) or each of its characters somewhere in the word (unordered).
   */
  lemma InputsMeaning(word: string, inputIncludeAll: Option<string>, inputIncludeOnly: Option<string>,
                      inputInclude: Option<string>, inputExclude: Option<string>, includeOrder: bool)
    ensures InputsMatch(word, inputIncludeAll, inputIncludeOnly, inputInclude, inputExclude, includeOrder) <==>
              && (inputIncludeOnly.Some? && inputIncludeOnly.value != [] ==>
                    forall i :: 0 <= i < |word| ==> word[i] in inputIncludeOnly.value)
              && (inputExclude.Some? ==> forall i :: 0 <= i < |word| ==> word[i] !in inputExclude.value)
              && (inputInclude.Some? ==> exists i :: 0 <= i < |word| && word[i] in inputInclude.value)
              && (inputIncludeAll.Some? && includeOrder ==> IsSubsequence(inputIncludeAll.value, word))
              && (inputIncludeAll.Some? && !includeOrder ==>
                    forall k :: 0 <= k < |inputIncludeAll.value| ==> inputIncludeAll.value[k] in word)
  {
    var exclude := if inputExclude.Some? then Some(CharSet(inputExclude.value)) else None;
    var includeAny := if inputInclude.Some? then Some(CharSet(inputInclude.value)) else None;
    var includeAll := if inputIncludeAll.Some? then Some(Singletons(inputIncludeAll.value)) else None;
    ComplementaryMeaning(word, exclude, includeAny, includeAll, includeOrder);
    if inputIncludeAll.Some? {
      IncludeAll.OrderedIsSubsequence(word, inputIncludeAll.value);
      IncludeAll.UnorderedContainsEach(word, inputIncludeAll.value);
      IncludeAll.OrderedIff(word, Singletons(inputIncludeAll.value));
      IncludeAll.UnorderedIff(word, Singletons(inputIncludeAll.value));
    }
  }

  /**
   * Mode exclusivity of `Search(SearchCriteria)`: with a regex only the regex decides; otherwise,
   * with a non-empty include-only string, only the whitelist decides; otherwise the complementary
   * criteria decide.
   */
  lemma CriteriaModes(words: seq<string>, criteria: SearchCriteria, w: string)
    ensures criteria.regex.Some? ==> (w in Filter(words, CriteriaRule(criteria)) <==> w in words && criteria.regex.value(w))
    ensures criteria.regex.None? && criteria.SpanIncludeOnly() != [] ==>
              (w in Filter(words, CriteriaRule(criteria)) <==>
                 w in words && forall i :: 0 <= i < |w| ==> w[i] in criteria.SpanIncludeOnly())
    ensures criteria.regex.None? && criteria.SpanIncludeOnly() == [] ==>
              (w in Filter(words, CriteriaRule(criteria)) <==>
                 w in words && Complementary(w, criteria.exclude, criteria.includeAny, criteria.includeAll, criteria.includeOrder))
  {
    FilterMembers(words, CriteriaRule(criteria), w);
  }

  /** A non-null empty include string builds the empty set, which no word meets: both searches find nothing. */
  lemma EmptyIncludeRejectsAll(words: seq<string>, inputIncludeAll: Option<string>, inputIncludeOnly: Option<string>,
                               inputExclude: Option<string>, includeOrder: bool)
    ensures Filter(words, InputsRule(inputIncludeAll, inputIncludeOnly, Some(""), inputExclude, includeOrder)) == []
    ensures var criteria := FromInputs(inputIncludeAll, inputIncludeOnly, Some(""), inputExclude, includeOrder);
            criteria.SpanIncludeOnly() == [] ==> Filter(words, CriteriaRule(criteria)) == []
  {
    var criteria := FromInputs(inputIncludeAll, inputIncludeOnly, Some(""), inputExclude, includeOrder);
    forall i | 0 <= i < |words|
      ensures !InputsRule(inputIncludeAll, inputIncludeOnly, Some(""), inputExclude, includeOrder)(words[i])
      ensures criteria.SpanIncludeOnly() == [] ==> !CriteriaRule(criteria)(words[i])
    {
      InputsMeaning(words[i], inputIncludeAll, inputIncludeOnly, Some(""), inputExclude, includeOrder);
      ComplementaryMeaning(words[i], criteria.exclude, criteria.includeAny, criteria.includeAll, criteria.includeOrder);
    }
    FilterNone(words, InputsRule(inputIncludeAll, inputIncludeOnly, Some(""), inputExclude, includeOrder));
    if criteria.SpanIncludeOnly() == [] {
      FilterNone(words, CriteriaRule(criteria));
    }
  }

  /** An empty include-all string imposes nothing. */
  lemma EmptyIncludeAllImposesNothing(word: string, inputIncludeOnly: Option<string>, inputInclude: Option<string>,
                                      inputExclude: Option<string>, includeOrder: bool)
    ensures InputsMatch(word, Some(""), inputIncludeOnly, inputInclude, inputExclude, includeOrder)
            == InputsMatch(word, None, inputIncludeOnly, inputInclude, inputExclude, includeOrder)
  {
    InputsMeaning(word, Some(""), inputIncludeOnly, inputInclude, inputExclude, includeOrder);
    InputsMeaning(word, None, inputIncludeOnly, inputInclude, inputExclude, includeOrder);
    assert EmbeddedAt("", word, []);
  }

  /**
   * The two versions of the rules on the same inputs: without a whitelist they agree; with one,
   * `Search(string?, ...)` also applies the complementary criteria to the whitelisted words, which
   * `Search(SearchCriteria)` does not.
   */
  lemma TwoVersions(words: seq<string>, inputIncludeAll: Option<string>, inputIncludeOnly: Option<string>,
                    inputInclude: Option<string>, inputExclude: Option<string>, includeOrder: bool)
    ensures var criteria := FromInputs(inputIncludeAll, inputIncludeOnly, inputInclude, inputExclude, includeOrder);
            var byInputs := Filter(words, InputsRule(inputIncludeAll, inputIncludeOnly, inputInclude, inputExclude, includeOrder));
            var byCriteria := Filter(words, CriteriaRule(criteria));
            && (criteria.SpanIncludeOnly() == [] ==> byInputs == byCriteria)
            && (criteria.SpanIncludeOnly() != [] ==>
                  byInputs == Filter(byCriteria, ComplementaryRule(criteria.exclude, criteria.includeAny,
                                                                    criteria.includeAll, criteria.includeOrder)))
  {
    var criteria := FromInputs(inputIncludeAll, inputIncludeOnly, inputInclude, inputExclude, includeOrder);
    var inputs := InputsRule(inputIncludeAll, inputIncludeOnly, inputInclude, inputExclude, includeOrder);
    var complementary := ComplementaryRule(criteria.exclude, criteria.includeAny, criteria.includeAll, criteria.includeOrder);
    assert criteria.exclude == if inputExclude.Some? then Some(CharSet(inputExclude.value)) else None;
    assert criteria.includeAny == if inputInclude.Some? then Some(CharSet(inputInclude.value)) else None;
    assert criteria.includeAll == if inputIncludeAll.Some? then Some(Singletons(inputIncludeAll.value)) else None;
    if criteria.SpanIncludeOnly() == [] {
      FilterCongruent(words, inputs, CriteriaRule(criteria));
    } else {
      FilterOfFilter(words, CriteriaRule(criteria), complementary, inputs);
    }
  }

  /**
   * The order of the results: a search over well-formed buckets scanned in ascending length order
   * returns a subsequence of all the words, listed by non-decreasing length.
   */
  lemma SearchOrder(buckets: map<int, seq<string>>, rule: string -> bool)
    requires WellFormed(buckets)
    ensures var all := Concat(buckets, SortedKeys(buckets.Keys));
            IsSubsequence(Filter(all, rule), all) && ByLength(Filter(all, rule))
  {
    var all := Concat(buckets, SortedKeys(buckets.Keys));
    ConcatByLength(buckets, SortedKeys(buckets.Keys));
    FilterIsSubsequence(all, rule);
    FilterKeepsSorted(all, rule, WordLength());
  }

  /**
   * The contents of the results: every match satisfies the rule, and a stored word that satisfies
   * it is matched as many times as it is stored.
   */
  lemma SearchCounts(buckets: map<int, seq<string>>, rule: string -> bool)
    ensures var all := Concat(buckets, SortedKeys(buckets.Keys));
            var r := Filter(all, rule);
            && (forall i :: 0 <= i < |r| ==> rule(r[i]))
            && (forall w :: multiset(r)[w] == if rule(w) then multiset(all)[w] else 0)
  {
    var all := Concat(buckets, SortedKeys(buckets.Keys));
    FilterSatisfies(all, rule);
    FilterMultiplicity(all, rule);
  }
}
