/** `validatePayload` of the owner-notification helper: both fields must be
    non-blank strings, and their trimmed forms must fit the length limits. */
module Notification {
  import opened Wrappers
  import opened Errors
  import opened JsText

  const TitleMaxLength: nat := 1200
  const ContentMaxLength: nat := 20000

  const TitleRequired := "Notification title is required."
  const ContentRequired := "Notification content is required."
  const TitleTooLong := "Notification title must be at most 1200 characters."
  const ContentTooLong := "Notification content must be at most 20000 characters."

  /** A field of the input object; `None` is any value that is not a string. */
  datatype Input = Input(title: Option<string>, content: Option<string>)

  datatype Validated = Validated(title: string, content: string)

  /** `isNonEmptyString(value)`. */
  predicate IsNonEmptyString(v: Option<string>)
  {
    v.Some? && |Trim(v.value)| > 0
  }

  /** `validatePayload(input)`. A `BAD_REQUEST` error of the RPC layer is
      written as a 400. */
  function ValidatePayload(input: Input): (r: Result<Validated, AppError>)
    ensures r.Success? <==>
      IsNonEmptyString(input.title) && IsNonEmptyString(input.content)
      && |Trim(input.title.value)| <= TitleMaxLength
      && |Trim(input.content.value)| <= ContentMaxLength
    ensures r.Success? ==>
      r.value.title == Trim(input.title.value) && r.value.content == Trim(input.content.value)
    ensures !IsNonEmptyString(input.title) ==> r == Failure(BadRequest(TitleRequired))
    ensures IsNonEmptyString(input.title) && !IsNonEmptyString(input.content)
            ==> r == Failure(BadRequest(ContentRequired))
    ensures r.Failure? ==> r.error.HttpError? && r.error.status == 400
  {
    if !IsNonEmptyString(input.title) then Failure(BadRequest(TitleRequired))
    else if !IsNonEmptyString(input.content) then Failure(BadRequest(ContentRequired))
    else
      var title := Trim(input.title.value);
      var content := Trim(input.content.value);
      if |title| > TitleMaxLength then Failure(BadRequest(TitleTooLong))
      else if |content| > ContentMaxLength then Failure(BadRequest(ContentTooLong))
      else Success(Validated(title, content))
  }

  /** An accepted payload is already in normal form: its fields are
      non-empty, carry no white space at either end, are within the limits,
      and validating them again returns them unchanged. */
  lemma ValidatePayloadNormalises(input: Input)
    requires ValidatePayload(input).Success?
    ensures var v := ValidatePayload(input).value;
      && v.title != [] && v.content != []
      && !IsJsWhitespace(v.title[0]) && !IsJsWhitespace(v.title[|v.title| - 1])
      && !IsJsWhitespace(v.content[0]) && !IsJsWhitespace(v.content[|v.content| - 1])
      && ValidatePayload(Input(Some(v.title), Some(v.content))) == Success(v)
  {
    var v := ValidatePayload(input).value;
    TrimmedField(input.title.value);
    TrimmedField(input.content.value);
    TrimIdempotent(input.title.value);
    TrimIdempotent(input.content.value);
    var again := Input(Some(v.title), Some(v.content));
    assert IsNonEmptyString(again.title) && IsNonEmptyString(again.content);
    assert Trim(again.title.value) == v.title && Trim(again.content.value) == v.content;
  }

  /** The trimmed form of a non-blank field has non-white ends. */
  lemma TrimmedField(s: string)
    requires |Trim(s)| > 0
    ensures !IsJsWhitespace(Trim(s)[0])
    ensures !IsJsWhitespace(Trim(s)[|Trim(s)| - 1])
  {
    assert Trim(s)[0] == TrimStart(s)[0];
  }

  /** A value made only of white space is rejected as missing. */
  lemma BlankTitleIsMissing(title: string, content: Option<string>)
    requires forall i :: 0 <= i < |title| ==> IsJsWhitespace(title[i])
    ensures ValidatePayload(Input(Some(title), content)) == Failure(BadRequest(TitleRequired))
  {
    TrimEmptyIffAllWhitespace(title);
  }
}
