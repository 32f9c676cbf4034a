/** The `Detailed` overloads: a readable, comma-separated rendering of criteria for the console. */
module Extensions {
  import opened Wrappers
  import opened Text

  const Separator: string := ", "

  /** The characters of `t` as one-character strings: what `string.Join` renders for a sequence of `char`. */
  function Characters(t: string): (r: seq<string>)
    ensures |r| == |t| && forall i :: 0 <= i < |t| ==> r[i] == [t[i]]
  {
    seq(|t|, i requires 0 <= i < |t| => [t[i]])
  }

  /** Joining one-character strings with a two-character separator puts element `i` at `3 * i`. */
  lemma {:induction false} UniformOffset(sep: string, xs: seq<string>, i: nat)
    requires i <= |xs| && |sep| == 2
    requires forall k :: 0 <= k < |xs| ==> |xs[k]| == 1
    ensures Offset(sep, xs, i) == 3 * i
    decreases i
  {
    if i > 0 {
      UniformOffset(sep, xs[1..], i - 1);
    }
  }

  /** The characters of `t` joined by ", ": each character at `3 * i`, the separator between consecutive ones. */
  lemma JoinedCharacters(t: string)
    requires |t| >= 1
    ensures var r := Join(Separator, Characters(t));
            && |r| == 3 * |t| - 2
            && (forall i :: 0 <= i < |t| ==> r[3 * i] == t[i])
            && (forall i :: 0 <= i < |t| - 1 ==> r[3 * i + 1..3 * i + 3] == Separator)
  {
    var xs := Characters(t);
    var r := Join(Separator, xs);
    JoinLength(Separator, xs);
    UniformOffset(Separator, xs, |xs| - 1);
    forall i | 0 <= i < |t|
      ensures r[3 * i] == t[i]
      ensures i < |t| - 1 ==> r[3 * i + 1..3 * i + 3] == Separator
    {
      JoinAt(Separator, xs, i);
      UniformOffset(Separator, xs, i);
      assert r[3 * i..3 * i + 1] == [t[i]];
    }
  }

  /**
   * `Detailed(string?)`: nothing for a null, empty or blank input; otherwise the characters of
   * the trimmed input separated by ", ", so `n` characters give `3n - 2`.
   */
  function DetailedString(input: Option<string>): (r: string)
    ensures IsNullOrWhiteSpace(input) ==> r == ""
    ensures !IsNullOrWhiteSpace(input) ==>
              var t := Trim(input.value);
              && |t| >= 1 && |r| == 3 * |t| - 2
              && (forall i :: 0 <= i < |t| ==> r[3 * i] == t[i])
              && (forall i :: 0 <= i < |t| - 1 ==> r[3 * i + 1..3 * i + 3] == Separator)
  {
    if IsNullOrWhiteSpace(input) then ""
    else
      var t := Trim(input.value);
      JoinedCharacters(t);
      Join(Separator, Characters(t))
  }

  /**
   * `Detailed(IEnumerable<string>)`: nothing for an empty sequence; otherwise the elements in
   * order, each at its offset and followed by ", " unless it is the last.
   */
  function DetailedEnumerable(input: seq<string>): (r: string)
    ensures input == [] ==> r == ""
    ensures |input| == 1 ==> r == input[0]
    ensures input != [] ==> |r| == Offset(Separator, input, |input| - 1) + |input[|input| - 1]|
    ensures forall i :: 0 <= i < |input| ==> PlacedAt(Separator, input, r, i)
  {
    if input == [] then ""
    else
      var r := Join(Separator, input);
      JoinLength(Separator, input);
      forall i | 0 <= i < |input| ensures PlacedAt(Separator, input, r, i) {
        JoinAt(Separator, input, i);
      }
      r
  }

  /** `Detailed(string[]?)`: nothing for a null or empty array; otherwise the joined elements, a single element unchanged. */
  function DetailedArray(input: Option<seq<string>>): (r: string)
    ensures input.None? || input.value == [] ==> r == ""
    ensures input.Some? && |input.value| == 1 ==> r == input.value[0]
    ensures input.Some? && input.value != [] ==>
              |r| == Offset(Separator, input.value, |input.value| - 1) + |input.value[|input.value| - 1]|
    ensures input.Some? ==> forall i :: 0 <= i < |input.value| ==> PlacedAt(Separator, input.value, r, i)
  {
    if input.None? || |input.value| == 0 then "" else DetailedEnumerable(input.value)
  }
}
