/** The simple arithmetic captcha the bundled login and registration require. */
module Captcha {
  import opened Wrappers
  import opened Errors

  /** One field of the captcha payload as JavaScript sees it: a number
      (integers only here), `NaN`, or a value whose `typeof` is not "number". */
  datatype Field = Num(n: int) | NaN | NotNumber

  datatype Payload = Payload(a: Field, b: Field, answer: Field)

  const Required := "Captcha verification is required"
  const Invalid := "Captcha values are invalid"
  const Incorrect := "Captcha answer is incorrect"

  predicate IsNumber(f: Field) { f.Num? }

  /** `validateSimpleCaptcha(payload)`: `None` is a missing (falsy) payload.
      It throws one of three 400 errors or returns nothing. */
  function ValidateSimpleCaptcha(payload: Option<Payload>): (r: Option<AppError>)
    ensures r.None? <==>
      payload.Some? && IsNumber(payload.value.a) && IsNumber(payload.value.b)
      && IsNumber(payload.value.answer)
      && payload.value.a.n + payload.value.b.n == payload.value.answer.n
    ensures payload.None? ==> r == Some(BadRequest(Required))
    ensures payload.Some? && !(IsNumber(payload.value.a) && IsNumber(payload.value.b)
                               && IsNumber(payload.value.answer))
            ==> r == Some(BadRequest(Invalid))
    ensures r.Some? ==> r.value.HttpError? && r.value.status == 400
  {
    if payload.None? then Some(BadRequest(Required))
    else
      var p := payload.value;
      if !p.a.Num? || !p.b.Num? || !p.answer.Num? then Some(BadRequest(Invalid))
      else if p.a.n + p.b.n != p.answer.n then Some(BadRequest(Incorrect))
      else None
  }

  /** The captcha accepts exactly one answer for each pair of numbers. */
  lemma CaptchaAnswerUnique(x: int, y: int, ans1: int, ans2: int)
    requires ValidateSimpleCaptcha(Some(Payload(Num(x), Num(y), Num(ans1)))).None?
    requires ValidateSimpleCaptcha(Some(Payload(Num(x), Num(y), Num(ans2)))).None?
    ensures ans1 == ans2
  {
  }

  /** A wrong answer to numeric fields gives "incorrect", never "invalid". */
  lemma WrongAnswerIsIncorrect(x: int, y: int, ans: int)
    requires x + y != ans
    ensures ValidateSimpleCaptcha(Some(Payload(Num(x), Num(y), Num(ans)))) == Some(BadRequest(Incorrect))
  {
  }
}
