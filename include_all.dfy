/**
 * The include-all check run for every word by both `Search` overloads: each required
 * character set is searched for in the word after `lastIndex`, and `lastIndex` moves to
 * the position found only when the order flag is set.
 */
module IncludeAll {
  import opened CharSets
  import opened Sequences

  /** The check as the loop computes it, from a given `lastIndex`. */
  function CheckFrom(word: string, required: seq<set<char>>, lastIndex: int, ordered: bool): bool
    requires -1 <= lastIndex < |word|
    decreases |required|
  {
    if required == [] then true
    else
      var index := IndexOfAny(word[lastIndex + 1..], required[0]);
      if index == -1 then false
      else CheckFrom(word, required[1..], if ordered then lastIndex + index + 1 else lastIndex, ordered)
  }

  /** The check as it starts, with `lastIndex == -1`. */
  function Check(word: string, required: seq<set<char>>, ordered: bool): bool
  {
    CheckFrom(word, required, -1, ordered)
  }

  /** The loop itself, with its early exit when a required character is missing. */
  method AllLettersFound(word: string, required: seq<set<char>>, ordered: bool) returns (allLettersFound: bool)
    ensures allLettersFound == Check(word, required, ordered)
  {
    var lastIndex := -1;
    allLettersFound := true;
    for k := 0 to |required|
      invariant -1 <= lastIndex < |word|
      invariant CheckFrom(word, required[k..], lastIndex, ordered) == Check(word, required, ordered)
    {
      var index := IndexOfAny(word[lastIndex + 1..], required[k]);
      CheckFromStep(word, required, k, lastIndex, ordered);
      if index == -1 {
        allLettersFound := false;
        break;
      }
      if ordered {
        lastIndex := lastIndex + index + 1;
      }
    }
  }

  /** One iteration of the loop: the search for `required[k]` after `lastIndex`, then the rest. */
  lemma CheckFromStep(word: string, required: seq<set<char>>, k: nat, lastIndex: int, ordered: bool)
    requires k < |required| && -1 <= lastIndex < |word|
    ensures var index := IndexOfAny(word[lastIndex + 1..], required[k]);
            CheckFrom(word, required[k..], lastIndex, ordered)
              == (index != -1 && CheckFrom(word, required[k + 1..], if ordered then lastIndex + index + 1 else lastIndex, ordered))
  {
    assert required[k..][0] == required[k] && required[k..][1..] == required[k + 1..];
  }

  /** `pos` gives strictly increasing positions of `word` matching the required sets one by one. */
  ghost predicate MatchedAt(word: string, required: seq<set<char>>, pos: seq<int>)
  {
    && |pos| == |required|
    && (forall i :: 0 <= i < |pos| ==> 0 <= pos[i] < |word| && word[pos[i]] in required[i])
    && (forall i, j :: 0 <= i < j < |pos| ==> pos[i] < pos[j])
  }

  lemma {:induction false} OrderedSound(word: string, required: seq<set<char>>, lastIndex: int) returns (pos: seq<int>)
    requires -1 <= lastIndex < |word|
    requires CheckFrom(word, required, lastIndex, true)
    ensures MatchedAt(word, required, pos)
    ensures forall i :: 0 <= i < |pos| ==> lastIndex < pos[i]
    decreases |required|
  {
    if required == [] {
      pos := [];
    } else {
      var index := IndexOfAny(word[lastIndex + 1..], required[0]);
      IndexOfAnyFirst(word[lastIndex + 1..], required[0]);
      assert index != -1;
      var p := lastIndex + index + 1;
      assert word[p] == word[lastIndex + 1..][index];
      assert CheckFrom(word, required[1..], p, true);
      var rest := OrderedSound(word, required[1..], p);
      MatchedCons(word, required, p, rest);
      pos := [p] + rest;
    }
  }

  /** A match of the first set followed by a match of the rest after it is a match of all the sets. */
  lemma MatchedCons(word: string, required: seq<set<char>>, p: int, rest: seq<int>)
    requires required != [] && 0 <= p < |word| && word[p] in required[0]
    requires MatchedAt(word, required[1..], rest)
    requires forall i :: 0 <= i < |rest| ==> p < rest[i]
    ensures MatchedAt(word, required, [p] + rest)
    ensures forall i :: 0 <= i < |rest| + 1 ==> p <= ([p] + rest)[i]
  {
    var pos := [p] + rest;
    forall i | 0 < i < |pos|
      ensures pos[i] == rest[i - 1] && required[i] == required[1..][i - 1]
    {
    }
  }

  lemma {:induction false} OrderedComplete(word: string, required: seq<set<char>>, lastIndex: int, pos: seq<int>)
    requires -1 <= lastIndex < |word|
    requires MatchedAt(word, required, pos)
    requires forall i :: 0 <= i < |pos| ==> lastIndex < pos[i]
    ensures CheckFrom(word, required, lastIndex, true)
    decreases |required|
  {
    if required != [] {
      var tail := word[lastIndex + 1..];
      var q := pos[0] - (lastIndex + 1);
      assert tail[q] == word[pos[0]];
      var index := IndexOfAny(tail, required[0]);
      IndexOfAnyFirst(tail, required[0]);
      assert index != -1 && index <= q;
      var rest := pos[1..];
      forall i | 0 <= i < |rest| ensures word[rest[i]] in required[1..][i] {
        assert rest[i] == pos[i + 1] && required[1..][i] == required[i + 1];
      }
      OrderedComplete(word, required[1..], lastIndex + index + 1, rest);
    }
  }

  /** Ordered: the word passes iff the required sets can be matched at strictly increasing positions. */
  lemma OrderedIff(word: string, required: seq<set<char>>)
    ensures Check(word, required, true) <==> exists pos :: MatchedAt(word, required, pos)
  {
    if Check(word, required, true) {
      var pos := OrderedSound(word, required, -1);
    }
    if pos :| MatchedAt(word, required, pos) {
      OrderedComplete(word, required, -1, pos);
    }
  }

  /** Ordered, over the sets compiled from a string: the word passes iff that string is a subsequence of it. */
  lemma OrderedIsSubsequence(word: string, chars: string)
    ensures Check(word, Singletons(chars), true) <==> IsSubsequence(chars, word)
  {
    var required := Singletons(chars);
    OrderedIff(word, required);
    forall pos ensures MatchedAt(word, required, pos) <==> EmbeddedAt(chars, word, pos) {
    }
  }

  lemma {:induction false} UnorderedFrom(word: string, required: seq<set<char>>)
    ensures CheckFrom(word, required, -1, false) <==> forall i :: 0 <= i < |required| ==> ContainsAny(word, required[i])
    decreases |required|
  {
    assert word[0..] == word;
    if required != [] {
      UnorderedFrom(word, required[1..]);
      assert forall i :: 1 <= i < |required| ==> required[i] == required[1..][i - 1];
    }
  }

  /** Unordered: the word passes iff every required set meets the word somewhere, each on its own. */
  lemma UnorderedIff(word: string, required: seq<set<char>>)
    ensures Check(word, required, false) <==> forall i :: 0 <= i < |required| ==> ContainsAny(word, required[i])
  {
    UnorderedFrom(word, required);
  }

  /** Unordered, over the sets compiled from a string: the word passes iff it contains each of its characters. */
  lemma UnorderedContainsEach(word: string, chars: string)
    ensures Check(word, Singletons(chars), false) <==> forall i :: 0 <= i < |chars| ==> chars[i] in word
  {
    var required := Singletons(chars);
    UnorderedIff(word, required);
    forall i | 0 <= i < |chars| ensures ContainsAny(word, required[i]) <==> chars[i] in word {
      ContainsAnyMeaning(word, required[i]);
      if chars[i] in word {
        var p :| 0 <= p < |word| && word[p] == chars[i];
        assert word[p] in required[i];
      }
    }
  }

  /** A repeated requirement: "ss" needs two 's' when ordered, and a single 's' is enough otherwise. */
  lemma RepeatedLetter()
    ensures Check("s", Singletons("ss"), false)
    ensures !Check("s", Singletons("ss"), true)
    ensures Check("sis", Singletons("ss"), true)
  {
    UnorderedContainsEach("s", "ss");
    assert "ss"[0] == 's' && "ss"[1] == 's' && "s"[0] == 's';
    assert Singletons("ss") == [{'s'}, {'s'}];
    assert "s"[1..] == [];
  }

  /**
   * Ordered "str": a word passes whenever it has an 's', a later 't' and a later 'r', as in
   * "sectoring" and "rooster" beside "strike" and "streak".
   */
  lemma OrderedStrMatches()
    ensures Check("strike", Singletons("str"), true) && Check("streak", Singletons("str"), true)
    ensures Check("sectoring", Singletons("str"), true) && Check("rooster", Singletons("str"), true)
  {
    assert "strike"[..3] == "streak"[..3] == "str";
    assert "sectoring"[0] == 's' && "sectoring"[3] == 't' && "sectoring"[5] == 'r';
    assert "rooster"[3] == 's' && "rooster"[4] == 't' && "rooster"[6] == 'r';
    StrAt("strike", 0, 1, 2);
    StrAt("streak", 0, 1, 2);
    StrAt("sectoring", 0, 3, 5);
    StrAt("rooster", 3, 4, 6);
  }

  /** An 's', a later 't' and a later 'r' are enough for the ordered check of "str". */
  lemma StrAt(word: string, s: int, t: int, r: int)
    requires 0 <= s < t < r < |word| && word[s] == 's' && word[t] == 't' && word[r] == 'r'
    ensures Check(word, Singletons("str"), true)
  {
    var pos := [s, t, r];
    assert "str"[0] == 's' && "str"[1] == 't' && "str"[2] == 'r';
    assert EmbeddedAt("str", word, pos);
    OrderedIsSubsequence(word, "str");
  }

  /** "retires" fails ordered "str": its only 's' is its last character, so no 't' follows it. */
  lemma RetiresFailsOrderedStr()
    ensures !Check("retires", Singletons("str"), true)
  {
    var w := "retires";
    var required := Singletons("str");
    assert required == [{'s'}, {'t'}, {'r'}];
    assert w[0..] == w;
    assert w[6] == 's' && forall i :: 0 <= i < 6 ==> w[i] != 's';
    assert IndexOfAny(w, {'s'}) == 6;
    assert w[7..] == [];
    assert IndexOfAny(w[7..], {'t'}) == -1;
    assert !CheckFrom(w, required[1..], 6, true);
  }
}
