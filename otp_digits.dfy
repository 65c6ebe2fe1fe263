/** The digit-by-digit one-time-code generator, which the bundled service
    (`generateOtp`) and the older mail helper (`generateOTP`) both define
    with the same loop. `Math.random` is the input `rand`: `rand(i)` is the
    digit `Math.floor(Math.random() * 10)` of the `i`-th draw. */
module OtpDigits {

  type Digit = d: int | 0 <= d < 10

  const DefaultLength: nat := 6

  /** The text of one digit, as `otp += digit` appends it. */
  function DigitChar(d: Digit): (c: char)
    ensures '0' <= c <= '9'
    ensures c as int - '0' as int == d
  {
    ('0' as int + d) as char
  }

  predicate AllDigits(s: string)
  {
    forall i :: 0 <= i < |s| ==> '0' <= s[i] <= '9'
  }

  /** The code made of the first `n` draws. */
  function DrawnCode(rand: nat -> Digit, n: nat): (s: string)
    ensures |s| == n
    ensures AllDigits(s)
  {
    seq(n, i requires 0 <= i < n => DigitChar(rand(i)))
  }

  /** `generateOtp(length)`: the loop runs while `i < length`, so a length of
      zero or less gives the empty code. */
  method GenerateOtp(length: int, rand: nat -> Digit) returns (otp: string)
    ensures otp == DrawnCode(rand, if length < 0 then 0 else length)
    ensures |otp| == (if length < 0 then 0 else length) && AllDigits(otp)
  {
    otp := "";
    var i := 0;
    while i < length
      invariant 0 <= i
      invariant length >= 0 ==> i <= length
      invariant length < 0 ==> i == 0
      invariant otp == DrawnCode(rand, i)
    {
      otp := otp + [DigitChar(rand(i))];
      i := i + 1;
    }
  }

  /** A code tells the draws it came from: reading each character back as a
      digit gives the draw, so two codes of the same length are equal exactly
      when their draws are. */
  lemma DrawnCodeDeterminesDraws(rand1: nat -> Digit, rand2: nat -> Digit, n: nat)
    ensures DrawnCode(rand1, n) == DrawnCode(rand2, n) <==> forall i :: 0 <= i < n ==> rand1(i) == rand2(i)
  {
    if DrawnCode(rand1, n) == DrawnCode(rand2, n) {
      forall i | 0 <= i < n ensures rand1(i) == rand2(i) {
        assert DrawnCode(rand1, n)[i] == DrawnCode(rand2, n)[i];
      }
    }
  }
}
