/** The .NET string primitives the core relies on: white space, `Trim` and `string.Join`. */
module Text {
  import opened Wrappers
  import opened Sequences

  /** `char.IsWhiteSpace`: the Unicode space, line and paragraph separators and the controls U+0009..U+000D, U+0085. */
  predicate IsWhiteSpace(c: char)
  {
    || '\U{9}' <= c <= '\U{D}'
    || c == ' ' || c == '\U{85}' || c == '\U{A0}' || c == '\U{1680}'
    || '\U{2000}' <= c <= '\U{200A}'
    || c == '\U{2028}' || c == '\U{2029}' || c == '\U{202F}' || c == '\U{205F}' || c == '\U{3000}'
  }

  predicate AllWhiteSpace(t: string)
  {
    forall i :: 0 <= i < |t| ==> IsWhiteSpace(t[i])
  }

  /** `string.IsNullOrWhiteSpace`. */
  predicate IsNullOrWhiteSpace(s: Option<string>)
  {
    match s
    case None => true
    case Some(t) => AllWhiteSpace(t)
  }

  /** `TrimStart()`: drops the leading white space. */
  function TrimStart(t: string): (r: string)
    ensures |r| <= |t|
  {
    if t != [] && IsWhiteSpace(t[0]) then TrimStart(t[1..]) else t
  }

  /** `TrimStart` keeps a suffix, drops only white space, and stops at a character that is not white space. */
  lemma {:induction false} TrimStartShape(t: string)
    ensures var r := TrimStart(t);
            && r == t[|t| - |r|..]
            && AllWhiteSpace(t[..|t| - |r|])
            && (r != [] ==> !IsWhiteSpace(r[0]))
  {
    if t != [] && IsWhiteSpace(t[0]) {
      var u := t[1..];
      TrimStartShape(u);
      var k := |u| - |TrimStart(u)|;
      assert u[k..] == t[k + 1..];
      assert t[..k + 1] == [t[0]] + u[..k];
    } else {
      assert t[..0] == [];
    }
  }

  /** `TrimEnd()`: drops the trailing white space. */
  function TrimEnd(t: string): (r: string)
    ensures |r| <= |t|
  {
    if t != [] && IsWhiteSpace(t[|t| - 1]) then TrimEnd(t[..|t| - 1]) else t
  }

  /** `TrimEnd` keeps a prefix, drops only white space, and stops at a character that is not white space. */
  lemma {:induction false} TrimEndShape(t: string)
    ensures var r := TrimEnd(t);
            && r == t[..|r|]
            && AllWhiteSpace(t[|r|..])
            && (r != [] ==> !IsWhiteSpace(r[|r| - 1]))
  {
    if t != [] && IsWhiteSpace(t[|t| - 1]) {
      var u := t[..|t| - 1];
      TrimEndShape(u);
      var n := |TrimEnd(u)|;
      assert u[..n] == t[..n];
      assert t[n..] == u[n..] + [t[|t| - 1]];
    } else {
      assert t[|t|..] == [];
    }
  }

  /** `Trim()`: the longest factor of `t` with no white space at either end. */
  function Trim(t: string): (r: string)
    ensures r != [] ==> !IsWhiteSpace(r[0]) && !IsWhiteSpace(r[|r| - 1])
    ensures r == [] <==> AllWhiteSpace(t)
  {
    var s := TrimStart(t);
    var r := TrimEnd(s);
    TrimStartShape(t);
    TrimEndShape(s);
    assert r != [] ==> r[0] == s[0];
    assert r == [] ==> AllWhiteSpace(t) by {
      if r == [] {
        var k := |t| - |s|;
        assert t == t[..k] + s;
      }
    }
    r
  }

  /** What `Trim` removes is white space, and what it keeps is the factor of `t` between. */
  lemma TrimFactor(t: string) returns (k: nat)
    ensures k + |Trim(t)| <= |t| && Trim(t) == t[k..k + |Trim(t)|]
    ensures AllWhiteSpace(t[..k]) && AllWhiteSpace(t[k + |Trim(t)|..])
  {
    var s := TrimStart(t);
    var r := TrimEnd(s);
    TrimStartShape(t);
    TrimEndShape(s);
    k := |t| - |s|;
    TrimParts(t, s, r, k);
  }

  /** White space, then `s` whose end past `r` is white space: `r` sits at `k`, and white space follows it. */
  lemma TrimParts(t: string, s: string, r: string, k: nat)
    requires k <= |t| && s == t[k..] && |r| <= |s| && r == s[..|r|] && AllWhiteSpace(s[|r|..])
    ensures k + |r| <= |t| && t[k..k + |r|] == r && AllWhiteSpace(t[k + |r|..])
  {
    SuffixParts(t, s, k, |r|);
  }

  /** `string.Join(sep, xs)`: the elements of `xs` in order, `sep` between consecutive ones. */
  function Join(sep: string, xs: seq<string>): string
  {
    if xs == [] then "" else if |xs| == 1 then xs[0] else xs[0] + sep + Join(sep, xs[1..])
  }

  /** Where element `i` of `xs` starts inside `Join(sep, xs)`. */
  function Offset(sep: string, xs: seq<string>, i: nat): nat
    requires i <= |xs|
  {
    if i == 0 then 0 else |xs[0]| + |sep| + Offset(sep, xs[1..], i - 1)
  }

  /** `r` holds element `i` of `xs` at its offset, followed by `sep` unless it is the last one. */
  ghost predicate PlacedAt(sep: string, xs: seq<string>, r: string, i: nat)
    requires i < |xs|
  {
    var o := Offset(sep, xs, i);
    && o + |xs[i]| <= |r|
    && r[o..o + |xs[i]|] == xs[i]
    && (i < |xs| - 1 ==> o + |xs[i]| + |sep| <= |r| && r[o + |xs[i]|..o + |xs[i]| + |sep|] == sep)
  }

  /** The joined string holds each element at its offset, followed by `sep` unless it is the last one. */
  lemma JoinAt(sep: string, xs: seq<string>, i: nat)
    requires i < |xs|
    ensures PlacedAt(sep, xs, Join(sep, xs), i)
  {
    var r, o, n := Join(sep, xs), Offset(sep, xs, i), |xs[i]|;
    JoinSuffix(sep, xs, i);
    var rest := xs[i..];
    assert rest[0] == xs[i];
    if i + 1 < |xs| {
      JoinHead(sep, rest);
      ShiftedSlice(r, o, n, n + |sep|);
    } else {
      assert rest == [xs[i]];
    }
    ShiftedSlice(r, o, 0, n);
  }

  /** From the offset of element `i` on, the joined string is the join of the elements from `i` on. */
  lemma {:induction false} JoinSuffix(sep: string, xs: seq<string>, i: nat)
    requires i < |xs|
    ensures Offset(sep, xs, i) <= |Join(sep, xs)| && Join(sep, xs)[Offset(sep, xs, i)..] == Join(sep, xs[i..])
  {
    if i == 0 {
      assert xs[0..] == xs;
    } else {
      var r, tail, d := Join(sep, xs), xs[1..], |xs[0]| + |sep|;
      JoinSuffix(sep, tail, i - 1);
      assert tail[i - 1..] == xs[i..];
      assert r == xs[0] + sep + Join(sep, tail);
      assert r[d..] == Join(sep, tail);
      var o' := Offset(sep, tail, i - 1);
      assert r[d..][o'..] == r[d + o'..];
    }
  }

  /** A join of two or more elements starts with the first element and the separator. */
  lemma JoinHead(sep: string, xs: seq<string>)
    requires |xs| >= 2
    ensures var r, n := Join(sep, xs), |xs[0]|;
            && n + |sep| <= |r| && r[0..n] == xs[0] && r[n..n + |sep|] == sep
  {
    var r := Join(sep, xs);
    assert r == xs[0] + sep + Join(sep, xs[1..]);
  }

  /** A non-empty join is as long as its elements plus one separator between each pair. */
  lemma {:induction false} JoinLength(sep: string, xs: seq<string>)
    requires xs != []
    ensures |Join(sep, xs)| == Offset(sep, xs, |xs| - 1) + |xs[|xs| - 1]|
  {
    if |xs| > 1 {
      JoinLength(sep, xs[1..]);
    }
  }
}
