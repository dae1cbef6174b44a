/**
 * The string format tests: URI paths (`/segment/segment...`) and kabob-case text.
 *
 * Each regular expression is modelled by a recogniser written over the characters
 * of the string, and each recogniser is related to an independent description of
 * the strings the expression accepts.
 */
module Strings {
  import opened Wrappers
  import opened JsValues

  // ---------------------------------------------------------------------------
  // Character classes
  // ---------------------------------------------------------------------------

  predicate IsAsciiLower(c: char) { 'a' <= c <= 'z' }
  predicate IsAsciiUpper(c: char) { 'A' <= c <= 'Z' }
  predicate IsAsciiDigit(c: char) { '0' <= c <= '9' }

  /**
   * The class `[a-z0-9\-_]` under the case-insensitive flag: without the Unicode
   * flag, case-insensitive matching compares upper-cased characters and never maps
   * a non-ASCII character onto an ASCII one, so exactly the ASCII letters of both
   * cases, the digits, `-` and `_` match.
   */
  predicate IsSegmentChar(c: char)
  {
    IsAsciiLower(c) || IsAsciiUpper(c) || IsAsciiDigit(c) || c == '-' || c == '_'
  }

  /** The class `[a-z0-9-]`, matched case-sensitively. */
  predicate IsKabobChar(c: char)
  {
    IsAsciiLower(c) || IsAsciiDigit(c) || c == '-'
  }

  // ---------------------------------------------------------------------------
  // URI paths: /^(?:\/[a-z0-9\-_]+)+$/i
  // ---------------------------------------------------------------------------

  /** Where a matcher of the URI expression is: before a `/`, right after one, or inside a segment. */
  datatype UriState = ExpectSlash | ExpectSegmentChar | InSegment

  /** One step of the matcher on character `c`; `None` when the expression cannot continue. */
  function UriStep(state: UriState, c: char): (next: Option<UriState>)
    ensures next.Some? && next.value == InSegment <==> state != ExpectSlash && IsSegmentChar(c)
    ensures next.Some? && next.value == ExpectSegmentChar <==> state != ExpectSegmentChar && c == '/'
  {
    match state
    case ExpectSlash => if c == '/' then Some(ExpectSegmentChar) else None
    case ExpectSegmentChar => if IsSegmentChar(c) then Some(InSegment) else None
    case InSegment =>
      if IsSegmentChar(c) then Some(InSegment)
      else if c == '/' then Some(ExpectSegmentChar)
      else None
  }

  /** Runs the matcher over `s` from `state`; the string is accepted when it ends inside a segment. */
  function UriRun(state: UriState, s: string): bool
    decreases |s|
  {
    if s == [] then state == InSegment
    else
      match UriStep(state, s[0])
      case None => false
      case Some(next) => UriRun(next, s[1..])
  }

  /** Whether the whole of `s` matches the URI expression. */
  predicate MatchesUri(s: string)
  {
    UriRun(ExpectSlash, s)
  }

  /**
   * The strings the URI expression describes, character by character: at least two
   * characters, a leading `/`, no trailing `/`, no `//`, and nothing but `/` and
   * segment characters.
   */
  predicate UriShape(s: string)
  {
    && |s| >= 2
    && s[0] == '/'
    && s[|s| - 1] != '/'
    && (forall i :: 0 <= i < |s| ==> s[i] == '/' || IsSegmentChar(s[i]))
    && (forall i :: 0 <= i < |s| - 1 && s[i] == '/' ==> s[i + 1] != '/')
  }

  /** The remaining input of a matcher inside a segment or just after a `/`. */
  predicate UriTail(state: UriState, s: string)
    requires state != ExpectSlash
  {
    && (state == ExpectSegmentChar ==> |s| >= 1 && s[0] != '/')
    && (s == [] || s[|s| - 1] != '/')
    && (forall i :: 0 <= i < |s| ==> s[i] == '/' || IsSegmentChar(s[i]))
    && (forall i :: 0 <= i < |s| - 1 && s[i] == '/' ==> s[i + 1] != '/')
  }

  lemma {:induction false} UriRunFromSegment(state: UriState, s: string)
    requires state != ExpectSlash
    ensures UriRun(state, s) <==> UriTail(state, s)
    decreases |s|
  {
    if s != [] {
      var rest := s[1..];
      assert forall i :: 0 <= i < |rest| ==> rest[i] == s[i + 1];
      match UriStep(state, s[0])
      case None =>
      case Some(next) =>
        UriRunFromSegment(next, rest);
    }
  }

  /** The recogniser accepts exactly the strings of the URI shape. */
  lemma MatchesUriIffShape(s: string)
    ensures MatchesUri(s) <==> UriShape(s)
  {
    if s != [] && s[0] == '/' {
      var rest := s[1..];
      assert forall i :: 0 <= i < |rest| ==> rest[i] == s[i + 1];
      UriRunFromSegment(ExpectSegmentChar, rest);
      if UriShape(s) {
        assert s[0] == '/' ==> s[1] != '/';
      }
    }
  }

  /** The path made of the given segments, each preceded by `/`. */
  function JoinSegments(segments: seq<string>): string
  {
    if segments == [] then "" else JoinSegments(segments[..|segments| - 1]) + "/" + segments[|segments| - 1]
  }

  /** A segment of the expression: one or more segment characters. */
  predicate IsSegment(segment: string)
  {
    |segment| >= 1 && forall i :: 0 <= i < |segment| ==> IsSegmentChar(segment[i])
  }

  /** Every path built from one or more well-formed segments matches. */
  lemma {:induction false} JoinedSegmentsMatch(segments: seq<string>)
    requires |segments| >= 1 && forall k :: 0 <= k < |segments| ==> IsSegment(segments[k])
    ensures MatchesUri(JoinSegments(segments))
  {
    JoinedSegmentsHaveShape(segments);
    MatchesUriIffShape(JoinSegments(segments));
  }

  lemma {:induction false} JoinedSegmentsHaveShape(segments: seq<string>)
    requires |segments| >= 1 && forall k :: 0 <= k < |segments| ==> IsSegment(segments[k])
    ensures UriShape(JoinSegments(segments))
  {
    var init, last := segments[..|segments| - 1], segments[|segments| - 1];
    var s := JoinSegments(segments);
    assert s == JoinSegments(init) + "/" + last;
    if init == [] {
      assert s == "/" + last;
    } else {
      JoinedSegmentsHaveShape(init);
      var p := JoinSegments(init);
      assert s == p + "/" + last;
      assert forall i :: 0 <= i < |s| ==> s[i] == (if i < |p| then p[i] else if i == |p| then '/' else last[i - |p| - 1]);
    }
  }

  // ---------------------------------------------------------------------------
  // Kabob-case: /^[a-z0-9-]+$/
  // ---------------------------------------------------------------------------

  /** A scan of `s` that fails at the first character outside `[a-z0-9-]`. */
  function KabobRun(s: string): bool
  {
    s == [] || (IsKabobChar(s[0]) && KabobRun(s[1..]))
  }

  /** Whether the whole of `s` matches the kabob-case expression. */
  predicate MatchesKabob(s: string)
  {
    s != [] && KabobRun(s)
  }

  /** The kabob-case expression accepts exactly the non-empty strings of lower-case letters, digits and `-`. */
  lemma {:induction false} KabobRunIffAll(s: string)
    ensures KabobRun(s) <==> forall i :: 0 <= i < |s| ==> IsKabobChar(s[i])
  {
    if s != [] {
      KabobRunIffAll(s[1..]);
      assert forall i :: 0 <= i < |s| - 1 ==> s[1..][i] == s[i + 1];
      if forall i :: 0 <= i < |s| ==> IsKabobChar(s[i]) {
        assert forall i :: 0 <= i < |s| - 1 ==> IsKabobChar(s[1..][i]);
      }
    }
  }

  /** Every kabob-case string is a valid URI segment, but `_` and capitals make segments that are not kabob-case. */
  lemma KabobIsSegment(s: string)
    ensures MatchesKabob(s) ==> IsSegment(s)
    ensures IsSegment("A_b") && !MatchesKabob("A_b")
  {
    KabobRunIffAll(s);
    KabobRunIffAll("A_b");
  }

  // ---------------------------------------------------------------------------
  // The exported tests
  // ---------------------------------------------------------------------------

  /**
   * `isStringURI(input, allowEmpty = false)`, with the expression treated as stateless
   * (see `UriTestAsWritten` for the effect of its global flag). The falsy guard turns
   * away the empty string before the length check, so `allowEmpty` never has an effect.
   */
  predicate IsStringUri(input: JsValue, allowEmpty: bool := false): (r: bool)
    ensures r <==> input.Str? && UriShape(input.s)
  {
    MatchesUriIffShape(if input.Str? then input.s else "");
    if !Truthy(input) || TypeOf(input) != "string" then false
    else if |input.s| == 0 then allowEmpty
    else MatchesUri(input.s)
  }

  /** `isStringKabob(input, allowEmpty = false)`; as for URIs, `allowEmpty` never has an effect. */
  predicate IsStringKabob(input: JsValue, allowEmpty: bool := false): (r: bool)
    ensures r <==> input.Str? && |input.s| >= 1 && forall i :: 0 <= i < |input.s| ==> IsKabobChar(input.s[i])
  {
    KabobRunIffAll(if input.Str? then input.s else "");
    if !Truthy(input) || TypeOf(input) != "string" then false
    else if |input.s| == 0 then allowEmpty
    else MatchesKabob(input.s)
  }

  /** The empty string is rejected whatever `allowEmpty` says, and non-strings are rejected. */
  lemma AllowEmptyHasNoEffect(input: JsValue, allowEmpty: bool)
    ensures IsStringUri(input, allowEmpty) == IsStringUri(input, false)
    ensures IsStringKabob(input, allowEmpty) == IsStringKabob(input, false)
    ensures !IsStringUri(Str(""), true) && !IsStringKabob(Str(""), true)
  {
  }

  /** The examples in the documentation of `isStringURI`. */
  lemma UriExamples()
    ensures IsStringUri(Str("/some/v4lu3s-go/here"))
    ensures !IsStringUri(Str("no/prefix/and/$ymbols"))
  {
    var segments := ["some", "v4lu3s-go", "here"];
    assert segments[..2][..1][..0] == [];
    assert segments[..2][..1] == ["some"];
    assert segments[..2] == ["some", "v4lu3s-go"];
    assert JoinSegments(segments[..2][..1]) == "/some";
    assert JoinSegments(segments[..2]) == "/some" + "/v4lu3s-go";
    assert JoinSegments(segments) == "/some/v4lu3s-go" + "/here";
    assert "/some/v4lu3s-go" + "/here" == "/some/v4lu3s-go/here";
    assert IsSegment(segments[0]) && IsSegment(segments[1]) && IsSegment(segments[2]);
    JoinedSegmentsHaveShape(segments);
  }

  /** The examples in the documentation of `isStringKabob`. */
  lemma KabobExamples()
    ensures IsStringKabob(Str("any-values01-here"))
    ensures !IsStringKabob(Str("Caps_and-symbols"))
  {
    var s := "any-values01-here";
    forall i | 0 <= i < |s|
      ensures IsKabobChar(s[i])
    {
    }
    assert !IsKabobChar("Caps_and-symbols"[0]);
  }

  // ---------------------------------------------------------------------------
  // The global flag of the exported expressions
  // ---------------------------------------------------------------------------

  /**
   * `RegexpURI.test(s)` as written, with its global flag: the search starts at the
   * expression's `lastIndex`, which a success moves to the end of the match and a
   * failure resets to 0. The anchor `^` only matches at position 0, so any search
   * that starts later fails. Returns the outcome and the new `lastIndex`.
   */
  function UriTestAsWritten(lastIndex: nat, s: string): (r: (bool, nat))
    ensures r.0 <==> lastIndex == 0 && UriShape(s)
    ensures r.1 == if r.0 then |s| else 0
  {
    MatchesUriIffShape(s);
    if lastIndex == 0 && MatchesUri(s) then (true, |s|) else (false, 0)
  }

  /**
   * Two calls of `isStringURI` with the same valid path disagree: the first leaves
   * `lastIndex` at the end of the path, so the second search starts past the anchor.
   */
  lemma RepeatedUriTestFails()
    ensures var first := UriTestAsWritten(0, "/a");
            first.0 && !UriTestAsWritten(first.1, "/a").0 && IsStringUri(Str("/a"))
  {
    assert UriShape("/a");
  }
}
