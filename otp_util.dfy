/** The older one-time-code helpers: a six-digit code made from one random
    draw below 1 000 000, padded with leading zeros, and a five-minute
    expiry. `Math.random() * 1000000` rounded down is the input `draw`; the
    clock is the input `now`, in milliseconds. */
module OtpUtil {
  import opened OtpDigits

  const CodeLength: nat := 6
  const DrawBound: nat := 1000000
  const ExpiryMinutes: nat := 5
  const ExpiryMs: int := 5 * 60 * 1000

  type Draw = n: int | 0 <= n < 1000000

  /** The number a string of digits spells in decimal. */
  function Value(s: string): int
  {
    if s == [] then 0 else Value(s[..|s| - 1]) * 10 + (s[|s| - 1] as int - '0' as int)
  }

  /** `n.toString()` for a non-negative integer. */
  function DecimalString(n: nat): (s: string)
    ensures s != [] && AllDigits(s)
    ensures Value(s) == n
    decreases n
  {
    var last := DigitChar(n % 10);
    if n < 10 then [last]
    else
      var s := DecimalString(n / 10) + [last];
      assert s[..|s| - 1] == DecimalString(n / 10);
      s
  }

  /** A number below 10^k takes at most k digits. */
  lemma {:induction false} DecimalStringLength(n: nat, k: nat, p: nat)
    requires p == Pow10(k) && n < p && k >= 1
    ensures |DecimalString(n)| <= k
    decreases k
  {
    if n >= 10 {
      assert n / 10 < Pow10(k - 1) by {
        assert p == 10 * Pow10(k - 1);
      }
      DecimalStringLength(n / 10, k - 1, Pow10(k - 1));
    }
  }

  function Pow10(k: nat): (p: nat)
    ensures p >= 1
  {
    if k == 0 then 1 else 10 * Pow10(k - 1)
  }

  /** `s.padStart(width, fill)`. */
  function PadStart(s: string, width: nat, fill: char): (r: string)
    ensures |s| >= width ==> r == s
    ensures |s| < width ==> |r| == width && r[width - |s|..] == s
    ensures |s| < width ==> forall i :: 0 <= i < width - |s| ==> r[i] == fill
  {
    if |s| >= width then s else seq(width - |s|, i => fill) + s
  }

  /** Leading zeros do not change the number a string spells. */
  lemma {:induction false} ValueLeadingZeros(z: nat, s: string)
    ensures Value(seq(z, i => '0') + s) == Value(s)
    decreases |s|
  {
    var zs := seq(z, i => '0');
    if s == [] {
      assert zs + s == zs;
      ZerosValue(z);
    } else {
      var init := s[..|s| - 1];
      assert (zs + s)[..|zs + s| - 1] == zs + init;
      ValueLeadingZeros(z, init);
    }
  }

  lemma {:induction false} ZerosValue(z: nat)
    ensures Value(seq(z, i => '0')) == 0
  {
    if z > 0 {
      assert seq(z, i => '0')[..z - 1] == seq(z - 1, i => '0');
      ZerosValue(z - 1);
    }
  }

  /** `generateOTP()`: the draw in decimal, padded with zeros to six characters. */
  function GenerateOtpPadded(draw: Draw): (code: string)
  {
    PadStart(DecimalString(draw), CodeLength, '0')
  }

  /** The code has six digits and spells the draw, so two draws give two codes;
      a draw below 100 000 gives a code starting with '0'. */
  lemma GenerateOtpPaddedMeaning(draw: Draw)
    ensures var code := GenerateOtpPadded(draw);
      && |code| == CodeLength
      && AllDigits(code)
      && Value(code) == draw
      && (draw < 100000 ==> code[0] == '0')
  {
    var s := DecimalString(draw);
    DecimalStringLength(draw, 6, Pow10(6));
    var code := GenerateOtpPadded(draw);
    if |s| < CodeLength {
      assert code == seq(CodeLength - |s|, i => '0') + s;
      ValueLeadingZeros(CodeLength - |s|, s);
    } else {
      assert |s| == 6;
      if draw < 100000 {
        assert s[0] != '0' by { LeadingDigitNonZero(draw); }
        assert s[0] >= '1';
        ValueAtLeast(s);
      }
    }
  }

  /** A decimal string of a positive number has no leading zero. */
  lemma LeadingDigitNonZero(n: nat)
    requires n >= 1
    ensures DecimalString(n)[0] != '0'
    decreases n
  {
    if n >= 10 {
      LeadingDigitNonZero(n / 10);
    }
  }

  /** Six digits starting with a non-zero digit spell at least 100 000. */
  lemma ValueAtLeast(s: string)
    requires |s| == 6 && AllDigits(s) && s[0] >= '1'
    ensures Value(s) >= 100000
  {
    var s1 := s[..1];
    var s2 := s[..2];
    var s3 := s[..3];
    var s4 := s[..4];
    var s5 := s[..5];
    assert s1[..0] == [];
    assert s2[..1] == s1;
    assert s3[..2] == s2;
    assert s4[..3] == s3;
    assert s5[..4] == s4;
    assert s[..5] == s5;
    assert Value(s1) >= 1;
    assert Value(s2) >= 10;
    assert Value(s3) >= 100;
    assert Value(s4) >= 1000;
    assert Value(s5) >= 10000;
  }

  /** Distinct draws give distinct codes. */
  lemma GenerateOtpPaddedInjective(a: Draw, b: Draw)
    ensures GenerateOtpPadded(a) == GenerateOtpPadded(b) <==> a == b
  {
    GenerateOtpPaddedMeaning(a);
    GenerateOtpPaddedMeaning(b);
  }

  /** `getOTPExpirationTime()`: five minutes after `now`. */
  function GetOtpExpirationTime(now: int): int
  {
    now + ExpiryMs
  }

  /** `isOTPExpired(expiresAt)`: strictly after the expiry instant. */
  predicate IsOtpExpired(expiresAt: int, now: int)
  {
    now > expiresAt
  }

  /** A code issued at `issuedAt` counts as expired at `now` exactly when
      more than five minutes have passed; at the expiry instant itself it is
      still valid. */
  lemma ExpiryWindow(issuedAt: int, now: int)
    ensures IsOtpExpired(GetOtpExpirationTime(issuedAt), now) <==> now - issuedAt > ExpiryMs
    ensures !IsOtpExpired(GetOtpExpirationTime(issuedAt), issuedAt + ExpiryMs)
    ensures now <= issuedAt ==> !IsOtpExpired(GetOtpExpirationTime(issuedAt), now)
  {
  }
}
