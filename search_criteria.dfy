/**
 * A compiled search request (`SearchCriteria`): a regular expression, or the include-all
 * sequence, the include/exclude sets, the include-only whitelist and the order flag.
 */
module Criteria {
  import opened Wrappers
  import opened CharSets

  /** A compiled regular expression, seen only through its `IsMatch` predicate on words. */
  type Regex = string -> bool

  /**
   * The fields of a `SearchCriteria` object; `inputIncludeOnly` is the private string
   * that `SpanIncludeOnly()` exposes.
   */
  datatype SearchCriteria = SearchCriteria(
    regex: Option<Regex>,
    includeAll: Option<seq<set<char>>>,
    exclude: Option<set<char>>,
    includeAny: Option<set<char>>,
    includeOrder: bool,
    inputIncludeOnly: Option<string>)
  {
    /** `SpanIncludeOnly()`: the whitelist as given, and the empty span when none was given. */
    function SpanIncludeOnly(): (r: string)
      ensures inputIncludeOnly.None? ==> r == []
      ensures inputIncludeOnly.Some? ==> r == inputIncludeOnly.value
    {
      match inputIncludeOnly
      case None => []
      case Some(only) => only
    }
  }

  /** The constructor taking the four optional criteria strings and the order flag. */
  function FromInputs(inputIncludeAll: Option<string>, inputIncludeOnly: Option<string>,
                      inputInclude: Option<string>, inputExclude: Option<string>,
                      includeOrder: bool := false): (c: SearchCriteria)
    ensures c.regex.None?
    ensures c.includeAll.Some? <==> inputIncludeAll.Some?
    ensures inputIncludeAll.Some? ==>
              && |c.includeAll.value| == |inputIncludeAll.value|
              && forall i :: 0 <= i < |inputIncludeAll.value| ==> c.includeAll.value[i] == {inputIncludeAll.value[i]}
    ensures c.exclude.Some? <==> inputExclude.Some?
    ensures inputExclude.Some? ==> forall ch :: ch in c.exclude.value <==> ch in inputExclude.value
    ensures c.includeAny.Some? <==> inputInclude.Some?
    ensures inputInclude.Some? ==> forall ch :: ch in c.includeAny.value <==> ch in inputInclude.value
    ensures c.includeOrder == includeOrder
    ensures inputIncludeOnly.None? ==> c.SpanIncludeOnly() == []
    ensures inputIncludeOnly.Some? ==> c.SpanIncludeOnly() == inputIncludeOnly.value
  {
    SearchCriteria(
      None,
      if inputIncludeAll.Some? then Some(Singletons(inputIncludeAll.value)) else None,
      if inputExclude.Some? then Some(CharSet(inputExclude.value)) else None,
      if inputInclude.Some? then Some(CharSet(inputInclude.value)) else None,
      includeOrder,
      inputIncludeOnly)
  }

  /**
   * The constructor taking a regular expression: `new Regex(strRegex)`, where `compile`
   * stands for the regex engine and answers `None` for a malformed pattern.
   */
  function FromRegex(strRegex: string, compile: string -> Option<Regex>): (r: Result<SearchCriteria>)
    ensures r.Err? <==> compile(strRegex).None?
    ensures r.Err? ==> r.error == InvalidPattern
    ensures r.Ok? ==>
              && r.value.regex.Some?
              && (forall w :: r.value.regex.value(w) == compile(strRegex).value(w))
              && r.value.includeAll.None? && r.value.includeAny.None? && r.value.exclude.None?
              && !r.value.includeOrder
              && r.value.SpanIncludeOnly() == []
  {
    match compile(strRegex)
    case None => Err(InvalidPattern)
    case Some(regex) => Ok(SearchCriteria(Some(regex), None, None, None, false, None))
  }
}
