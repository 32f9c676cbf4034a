/** Generic sequence operations used throughout the model (LINQ Where, Take, SelectMany). */
module Sequences {

  function Min(a: int, b: int): int { if a <= b then a else b }

  function Max(a: int, b: int): int { if a >= b then a else b }

  /** LINQ `Where`: the elements of `s` satisfying `p`, in their original order. */
  function Filter<T(!new)>(s: seq<T>, p: T -> bool): (r: seq<T>)
    ensures |r| <= |s|
  {
    if s == [] then []
    else
      var init, last := s[..|s| - 1], s[|s| - 1];
      assert s == init + [last];
      Filter(init, p) + (if p(last) then [last] else [])
  }

  /** LINQ `Take`: the first `k` elements, all of them when `k >= |s|`, none when `k <= 0`. */
  function Take<T>(s: seq<T>, k: int): (r: seq<T>)
    ensures |r| == Max(0, Min(k, |s|))
    ensures r <= s
  {
    if k <= 0 then [] else if k >= |s| then s else s[..k]
  }

  /** Concatenation of a sequence of sequences (LINQ `SelectMany` with the identity). */
  function Flatten<T>(ss: seq<seq<T>>): seq<T>
  {
    if ss == [] then [] else ss[0] + Flatten(ss[1..])
  }

  /** `pos` lists strictly increasing positions of `b` at which the elements of `a` occur, in order. */
  ghost predicate EmbeddedAt<T>(a: seq<T>, b: seq<T>, pos: seq<int>)
  {
    && |pos| == |a|
    && (forall i :: 0 <= i < |pos| ==> 0 <= pos[i] < |b| && b[pos[i]] == a[i])
    && (forall i, j :: 0 <= i < j < |pos| ==> pos[i] < pos[j])
  }

  /** `a` is obtained from `b` by deleting elements. */
  ghost predicate IsSubsequence<T>(a: seq<T>, b: seq<T>)
  {
    exists pos :: EmbeddedAt(a, b, pos)
  }

  /** Every element kept satisfies the predicate. */
  lemma {:induction false} FilterSatisfies<T(!new)>(s: seq<T>, p: T -> bool)
    ensures forall i :: 0 <= i < |Filter(s, p)| ==> p(Filter(s, p)[i])
  {
    if s != [] {
      FilterSatisfies(s[..|s| - 1], p);
    }
  }

  /** Filtering keeps every occurrence of a satisfying element and drops every other one. */
  lemma {:induction false} FilterMultiplicity<T(!new)>(s: seq<T>, p: T -> bool)
    ensures forall x :: multiset(Filter(s, p))[x] == if p(x) then multiset(s)[x] else 0
  {
    if s != [] {
      var init, last := s[..|s| - 1], s[|s| - 1];
      assert s == init + [last];
      FilterMultiplicity(init, p);
    }
  }

  /** Filtering one more element of a prefix appends it exactly when it satisfies the predicate. */
  lemma FilterStep<T(!new)>(s: seq<T>, j: nat, p: T -> bool)
    requires j < |s|
    ensures p(s[j]) ==> Filter(s[..j + 1], p) == Filter(s[..j], p) + [s[j]]
    ensures !p(s[j]) ==> Filter(s[..j + 1], p) == Filter(s[..j], p)
  {
    assert s[..j + 1][..j] == s[..j];
  }

  lemma {:induction false} FilterConcat<T(!new)>(a: seq<T>, b: seq<T>, p: T -> bool)
    ensures Filter(a + b, p) == Filter(a, p) + Filter(b, p)
    decreases |b|
  {
    if b == [] {
      assert a + b == a;
    } else {
      var init, last := b[..|b| - 1], b[|b| - 1];
      var tail := if p(last) then [last] else [];
      assert (a + b)[..|a + b| - 1] == a + init;
      assert (a + b)[|a + b| - 1] == last;
      assert Filter(a + b, p) == Filter(a + init, p) + tail;
      assert Filter(b, p) == Filter(init, p) + tail;
      FilterConcat(a, init, p);
      assert Filter(a + b, p) == Filter(a, p) + Filter(init, p) + tail;
    }
  }

  /** Filtering keeps order: the result is a subsequence of the input. */
  lemma {:induction false} FilterIsSubsequence<T(!new)>(s: seq<T>, p: T -> bool)
    ensures IsSubsequence(Filter(s, p), s)
  {
    var pos := FilterPositions(s, p);
  }

  /** An embedding survives appending one element to the host, and extends by it when the element is appended to both. */
  lemma EmbeddedSnoc<T>(a: seq<T>, b: seq<T>, pos: seq<int>, x: T)
    requires EmbeddedAt(a, b, pos)
    ensures EmbeddedAt(a, b + [x], pos)
    ensures EmbeddedAt(a + [x], b + [x], pos + [|b|])
  {
    var pos', a' := pos + [|b|], a + [x];
    assert forall i :: 0 <= i < |pos| ==> pos'[i] == pos[i] && a'[i] == a[i];
  }

  lemma {:induction false} FilterPositions<T(!new)>(s: seq<T>, p: T -> bool) returns (pos: seq<int>)
    ensures EmbeddedAt(Filter(s, p), s, pos)
    ensures forall i :: 0 <= i < |pos| ==> pos[i] < |s|
  {
    if s == [] {
      pos := [];
    } else {
      var init, last := s[..|s| - 1], s[|s| - 1];
      var pre := FilterPositions(init, p);
      assert s == init + [last];
      EmbeddedSnoc(Filter(init, p), init, pre, last);
      if p(last) {
        pos := pre + [|s| - 1];
      } else {
        pos := pre;
      }
    }
  }

  /** Filtering a sequence whose elements are ordered by a key keeps them ordered by that key. */
  lemma {:induction false} FilterKeepsSorted<T(!new)>(s: seq<T>, p: T -> bool, key: T -> int)
    requires forall i, j :: 0 <= i < j < |s| ==> key(s[i]) <= key(s[j])
    ensures var r := Filter(s, p); forall i, j :: 0 <= i < j < |r| ==> key(r[i]) <= key(r[j])
  {
    var pos := FilterPositions(s, p);
    var r := Filter(s, p);
    forall i, j | 0 <= i < j < |r| ensures key(r[i]) <= key(r[j]) {
      assert r[i] == s[pos[i]] && r[j] == s[pos[j]];
    }
  }

  /** An element is kept iff it occurs in the input and satisfies the predicate. */
  lemma {:induction false} FilterMembers<T(!new)>(s: seq<T>, p: T -> bool, x: T)
    ensures x in Filter(s, p) <==> x in s && p(x)
  {
    if s != [] {
      var init, last := s[..|s| - 1], s[|s| - 1];
      FilterMembers(init, p, x);
      assert s == init + [last];
    }
  }

  /** A predicate no element satisfies keeps nothing. */
  lemma {:induction false} FilterNone<T(!new)>(s: seq<T>, p: T -> bool)
    requires forall i :: 0 <= i < |s| ==> !p(s[i])
    ensures Filter(s, p) == []
  {
    if s != [] {
      FilterNone(s[..|s| - 1], p);
    }
  }

  /** Predicates that agree on the elements keep the same elements. */
  lemma {:induction false} FilterCongruent<T(!new)>(s: seq<T>, p: T -> bool, q: T -> bool)
    requires forall i :: 0 <= i < |s| ==> p(s[i]) == q(s[i])
    ensures Filter(s, p) == Filter(s, q)
  {
    if s != [] {
      FilterCongruent(s[..|s| - 1], p, q);
    }
  }

  /** Filtering by a conjunction is filtering by its first conjunct and then by its second. */
  lemma {:induction false} FilterOfFilter<T(!new)>(s: seq<T>, p: T -> bool, q: T -> bool, both: T -> bool)
    requires forall i :: 0 <= i < |s| ==> both(s[i]) == (p(s[i]) && q(s[i]))
    ensures Filter(s, both) == Filter(Filter(s, p), q)
  {
    if s != [] {
      var init, last := s[..|s| - 1], s[|s| - 1];
      FilterOfFilter(init, p, q, both);
      assert Filter(s, both) == Filter(init, both) + (if both(last) then [last] else []);
      if p(last) {
        assert Filter(s, p) == Filter(init, p) + [last];
        FilterConcat(Filter(init, p), [last], q);
        assert Filter([last], q) == (if q(last) then [last] else []) by {
          assert [last][..0] == [];
        }
      } else {
        assert Filter(s, p) == Filter(init, p);
      }
    }
  }

  /** Flattening one more sequence appends it. */
  lemma {:induction false} FlattenSnoc<T>(ss: seq<seq<T>>, x: seq<T>)
    ensures Flatten(ss + [x]) == Flatten(ss) + x
  {
    if ss != [] {
      assert (ss + [x])[1..] == ss[1..] + [x];
      FlattenSnoc(ss[1..], x);
    }
  }

  /** A slice of the source without its first `d` elements is a slice of the source shifted by `d`. */
  lemma ShiftedSlice<T>(src: seq<T>, d: nat, lo: nat, hi: nat)
    requires d <= |src| && lo <= hi <= |src| - d
    ensures src[d..][lo..hi] == src[d + lo..d + hi]
  {
  }

  /** When `s` is `t` from `k` on, its first `n` elements and the rest are slices of `t` too. */
  lemma SuffixParts<T>(t: seq<T>, s: seq<T>, k: nat, n: nat)
    requires k <= |t| && s == t[k..] && n <= |s|
    ensures t[k..k + n] == s[..n] && t[k + n..] == s[n..]
  {
  }

  lemma AppendAssoc<T>(a: seq<T>, b: seq<T>, c: seq<T>)
    ensures (a + b) + c == a + (b + c)
  {
  }

  /** A sequence that agrees with `s` from `start` on, element by element, is that slice of `s`. */
  lemma SliceOfPointwise<T>(x: seq<T>, s: seq<T>, start: nat)
    requires start + |x| <= |s| && forall k :: 0 <= k < |x| ==> x[k] == s[start + k]
    ensures x == s[start..start + |x|]
  {
  }
}
