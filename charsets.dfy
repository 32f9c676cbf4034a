/**
 * The character-set matcher: `SearchValues<char>` is a set of characters, and the span
 * searches the core uses over it (`IndexOfAny`, `ContainsAny`, `ContainsAnyExcept`).
 */
module CharSets {

  /** `SearchValues.Create(s)`: the characters of `s`. */
  function CharSet(s: string): set<char>
  {
    set c | c in s
  }

  /** `IndexOfAny`: the first position of `w` holding a character of `m`, or -1 when there is none. */
  function IndexOfAny(w: string, m: set<char>): (r: int)
    ensures -1 <= r < |w|
  {
    if w == [] then -1
    else if w[0] in m then 0
    else
      var k := IndexOfAny(w[1..], m);
      if k == -1 then -1 else k + 1
  }

  /** `IndexOfAny` finds the first character of `m`, and gives -1 exactly when `w` has none. */
  lemma {:induction false} IndexOfAnyFirst(w: string, m: set<char>)
    ensures var r := IndexOfAny(w, m);
            && (r == -1 <==> forall i :: 0 <= i < |w| ==> w[i] !in m)
            && (r >= 0 ==> w[r] in m && forall i :: 0 <= i < r ==> w[i] !in m)
  {
    if w != [] && w[0] !in m {
      IndexOfAnyFirst(w[1..], m);
      assert forall i :: 1 <= i < |w| ==> w[i] == w[1..][i - 1];
    }
  }

  /** `ContainsAny`: some character of `w` lies in `m`. */
  predicate ContainsAny(w: string, m: set<char>)
  {
    IndexOfAny(w, m) != -1
  }

  lemma ContainsAnyMeaning(w: string, m: set<char>)
    ensures ContainsAny(w, m) <==> exists i :: 0 <= i < |w| && w[i] in m
  {
    IndexOfAnyFirst(w, m);
  }

  /** `ContainsAnyExcept(values)`: some character of `w` is not one of `values`. */
  function ContainsAnyExcept(w: string, values: string): (r: bool)
    ensures r <==> exists i :: 0 <= i < |w| && w[i] !in values
  {
    if w == [] then false
    else if w[0] !in values then true
    else
      var rest := ContainsAnyExcept(w[1..], values);
      assert forall i :: 1 <= i < |w| ==> w[i] == w[1..][i - 1];
      rest
  }

  /** One single-character set per character of `s`, in order and with repeats. */
  function Singletons(s: string): (r: seq<set<char>>)
    ensures |r| == |s|
    ensures forall i :: 0 <= i < |s| ==> r[i] == {s[i]}
  {
    if s == [] then [] else [{s[0]}] + Singletons(s[1..])
  }
}
