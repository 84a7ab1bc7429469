/**
 * `QValidator` (rag/utils/validator.py, repeated verbatim in
 * rag/utils/question_validation.py): the guard run on a user question before
 * retrieval. The question is stripped, then checked in a fixed order (empty, no
 * ASCII letter or digit, too short); the first failing check names the error
 * code, and a code is turned into a message for the user.
 */
module Validator {
  import opened Wrappers
  import opened Text

  const MinChars: nat := 3
  const MinAlphaChars: nat := 2

  const EmptyQuery: string := "EMPTY_QUERY"
  const NoSemanticContent: string := "NO_SEMANTIC_CONTENT"
  const QueryTooShort: string := "QUERY_TOO_SHORT"

  const ErrorMessages: map<string, string> := map[
    EmptyQuery := "Please provide a question.",
    NoSemanticContent := "Your input doesn\U{2019}t contain a meaningful question.",
    QueryTooShort := "Could you be a bit more specific?"
  ]

  /** The message for a code that is not in `ErrorMessages`. */
  const DefaultMessage: string := "Your request could not be processed."

  /** The character class `[a-zA-Z0-9]`. */
  predicate IsAsciiAlnum(c: char) {
    'a' <= c <= 'z' || 'A' <= c <= 'Z' || '0' <= c <= '9'
  }

  /** Python's `str.isalnum` for one character, up to U+00FF: the ASCII letters
      and digits, the Latin-1 letters, the superscript digits, the fractions
      and the ordinal indicators. */
  predicate IsAlnum(c: char) {
    || IsAsciiAlnum(c)
    || c == '\U{aa}' || c == '\U{b2}' || c == '\U{b3}' || c == '\U{b5}'
    || c == '\U{b9}' || c == '\U{ba}'
    || '\U{bc}' <= c <= '\U{be}'
    || '\U{c0}' <= c <= '\U{d6}'
    || '\U{d8}' <= c <= '\U{f6}'
    || '\U{f8}' <= c <= '\U{ff}'
  }

  /** `_normalize_question`: `q.strip()`. */
  function NormalizeQuestion(q: string): (r: string)
    ensures |r| <= |q|
    ensures r == [] <==> IsBlank(q)
    ensures r == [] || (!IsSpace(r[0]) && !IsSpace(r[|r| - 1]))
  {
    StripEmptyIffBlank(q);
    Strip(q)
  }

  /** `re.search(r"[a-zA-Z0-9]", q)`: the position of the first ASCII letter or
      digit, if any. */
  function SearchAsciiAlnum(q: string): (r: Option<nat>)
    ensures r.Some? ==> r.value < |q| && IsAsciiAlnum(q[r.value])
    ensures r.Some? ==> forall j | 0 <= j < r.value :: !IsAsciiAlnum(q[j])
    ensures r.None? <==> forall j | 0 <= j < |q| :: !IsAsciiAlnum(q[j])
  {
    if q == [] then None
    else if IsAsciiAlnum(q[0]) then Some(0)
    else
      match SearchAsciiAlnum(q[1..])
      case None => None
      case Some(i) => Some(i + 1)
  }

  /** `_is_semantically_empty`: no match for `[a-zA-Z0-9]`. */
  predicate IsSemanticallyEmpty(q: string) {
    SearchAsciiAlnum(q).None?
  }

  /** `sum(c.isalnum() for c in q)`. */
  function AlnumCount(q: string): (n: nat)
    ensures n <= |q|
    ensures n == 0 <==> forall j | 0 <= j < |q| :: !IsAlnum(q[j])
    decreases |q|
  {
    if q == [] then 0
    else
      var n := |q| - 1;
      AlnumCount(q[..n]) + (if IsAlnum(q[n]) then 1 else 0)
  }

  /** `_is_too_short`. */
  predicate IsTooShort(q: string) {
    AlnumCount(q) < MinAlphaChars || |q| < MinChars
  }

  /** `validate_question`: `(is_valid, error_code)`; the first of the checks
      empty, semantically empty and too short that fails gives the code. */
  function ValidateQuestion(q: string): (r: (bool, Option<string>))
    ensures r.0 <==> r.1 == None
    ensures r.1.Some? ==> r.1.value in ErrorMessages
  {
    var s := NormalizeQuestion(q);
    if s == [] then (false, Some(EmptyQuery))
    else if IsSemanticallyEmpty(s) then (false, Some(NoSemanticContent))
    else if IsTooShort(s) then (false, Some(QueryTooShort))
    else (true, None)
  }

  /** `human_readable_message`: the message for a known code, the default for
      any other string. */
  function HumanReadableMessage(errorCode: string): string {
    if errorCode in ErrorMessages then ErrorMessages[errorCode] else DefaultMessage
  }

  // ---------------------------------------------------------------------------
  // Properties

  /** An ASCII letter or digit is alphanumeric for `str.isalnum` too. */
  lemma AsciiAlnumIsAlnum(c: char)
    requires IsAsciiAlnum(c)
    ensures IsAlnum(c)
  {
  }

  /** No whitespace character is alphanumeric. */
  lemma SpaceIsNotAlnum(c: char)
    requires IsSpace(c)
    ensures !IsAlnum(c)
  {
  }

  /** A question with an ASCII letter or digit has at least one alphanumeric
      character, so the too-short check never sees a count of zero. */
  lemma SemanticContentIsAlnum(q: string)
    requires !IsSemanticallyEmpty(q)
    ensures AlnumCount(q) >= 1
  {
    var i := SearchAsciiAlnum(q).value;
    AsciiAlnumIsAlnum(q[i]);
  }

  /** The alphanumeric count of a concatenation is the sum of the counts. */
  lemma {:induction false} AlnumCountConcat(x: string, y: string)
    ensures AlnumCount(x + y) == AlnumCount(x) + AlnumCount(y)
    decreases |y|
  {
    if y != [] {
      var n := |y| - 1;
      assert (x + y)[..|x + y| - 1] == x + y[..n];
      AlnumCountConcat(x, y[..n]);
    } else {
      assert x + y == x;
    }
  }

  /** Whitespace at either end does not change the alphanumeric count. */
  lemma PaddingKeepsAlnumCount(a: string, q: string, b: string)
    requires IsBlank(a) && IsBlank(b)
    ensures AlnumCount(a + q + b) == AlnumCount(q)
  {
    AlnumCountConcat(a + q, b);
    AlnumCountConcat(a, q);
    forall j | 0 <= j < |a| ensures !IsAlnum(a[j]) { SpaceIsNotAlnum(a[j]); }
    forall j | 0 <= j < |b| ensures !IsAlnum(b[j]) { SpaceIsNotAlnum(b[j]); }
  }

  /** Whitespace at either end does not change whether there is an ASCII letter
      or digit. */
  lemma PaddingKeepsSemanticContent(a: string, q: string, b: string)
    requires IsBlank(a) && IsBlank(b)
    ensures IsSemanticallyEmpty(a + q + b) <==> IsSemanticallyEmpty(q)
  {
    var p := a + q + b;
    if !IsSemanticallyEmpty(q) {
      var i := SearchAsciiAlnum(q).value;
      assert p[|a| + i] == q[i];
    }
    if !IsSemanticallyEmpty(p) {
      var i := SearchAsciiAlnum(p).value;
      if |a| <= i < |a| + |q| {
        assert p[i] == q[i - |a|];
      }
    }
  }

  /** Stripping keeps the alphanumeric count and whether there is an ASCII
      letter or digit. */
  lemma StripKeepsAlnum(q: string)
    ensures AlnumCount(Strip(q)) == AlnumCount(q)
    ensures IsSemanticallyEmpty(Strip(q)) <==> IsSemanticallyEmpty(q)
  {
    var lo, hi := StripBounds(q);
    assert q == q[..lo] + Strip(q) + q[hi..];
    PaddingKeepsAlnumCount(q[..lo], Strip(q), q[hi..]);
    PaddingKeepsSemanticContent(q[..lo], Strip(q), q[hi..]);
  }

  /** `validate_question` decided on the raw input: whitespace only gives
      `EMPTY_QUERY`; otherwise no ASCII letter or digit gives
      `NO_SEMANTIC_CONTENT`; otherwise fewer than two alphanumeric characters or
      fewer than three characters once stripped gives `QUERY_TOO_SHORT`;
      otherwise the question is valid. */
  lemma ValidateQuestionCases(q: string)
    ensures IsBlank(q) ==> ValidateQuestion(q) == (false, Some(EmptyQuery))
    ensures !IsBlank(q) && IsSemanticallyEmpty(q) ==>
      ValidateQuestion(q) == (false, Some(NoSemanticContent))
    ensures !IsSemanticallyEmpty(q) && (AlnumCount(q) < MinAlphaChars || |Strip(q)| < MinChars) ==>
      ValidateQuestion(q) == (false, Some(QueryTooShort))
    ensures ValidateQuestion(q).0 <==>
      !IsSemanticallyEmpty(q) && AlnumCount(q) >= MinAlphaChars && |Strip(q)| >= MinChars
  {
    StripKeepsAlnum(q);
    StripEmptyIffBlank(q);
    if !IsSemanticallyEmpty(q) {
      var j := SearchAsciiAlnum(q).value;
      assert !IsSpace(q[j]);
    }
  }

  /** Validation looks only at the stripped question: surrounding whitespace
      never changes the result. */
  lemma ValidateIgnoresPadding(a: string, q: string, b: string)
    requires IsBlank(a) && IsBlank(b)
    ensures ValidateQuestion(a + q + b) == ValidateQuestion(q)
  {
    StripIgnoresPadding(a, q, b);
  }

  /** Validating the stripped question gives the same result. */
  lemma ValidateNormalized(q: string)
    ensures ValidateQuestion(NormalizeQuestion(q)) == ValidateQuestion(q)
  {
    StripIdempotent(q);
  }

  /** Each code has its fixed message, and any other string the default. */
  lemma MessagesOfCodes(errorCode: string)
    ensures HumanReadableMessage(EmptyQuery) == "Please provide a question."
    ensures HumanReadableMessage(NoSemanticContent) == "Your input doesn\U{2019}t contain a meaningful question."
    ensures HumanReadableMessage(QueryTooShort) == "Could you be a bit more specific?"
    ensures errorCode !in {EmptyQuery, NoSemanticContent, QueryTooShort} ==>
      HumanReadableMessage(errorCode) == DefaultMessage
  {
  }

  /** A rejected question always gets one of the three specific messages, never
      the default. */
  lemma RejectionMessageIsSpecific(q: string)
    requires !ValidateQuestion(q).0
    ensures HumanReadableMessage(ValidateQuestion(q).1.value) != DefaultMessage
  {
    var code := ValidateQuestion(q).1.value;
    assert code in {EmptyQuery, NoSemanticContent, QueryTooShort};
  }
}
