/** The address check of the mail helper: `isValidEmail` tests the pattern
    `^[^\s@]+@[^\s@]+\.[^\s@]+$`. The pattern is restated as `EmailPattern`,
    the search over the places of '@' and '.' the regular expression engine
    makes; `IsValidEmail` decides it by looking at the first '@' only. */
module EmailUtil {
  import opened Wrappers
  import opened JsText

  /** A character of the class `[^\s@]`. */
  predicate Plain(c: char)
  {
    !IsJsWhitespace(c) && c != '@'
  }

  predicate AllPlain(s: string)
  {
    forall i :: 0 <= i < |s| ==> Plain(s[i])
  }

  /** The regular expression, as the split it must find: a non-empty local
      part, '@', a non-empty run, '.', and a non-empty rest, none of the
      three parts holding white space or '@'. */
  ghost predicate EmailPattern(s: string)
  {
    exists at: nat, dot: nat ::
      && 0 < at && at + 1 < dot && dot + 1 < |s|
      && s[at] == '@' && s[dot] == '.'
      && AllPlain(s[..at]) && AllPlain(s[at + 1..dot]) && AllPlain(s[dot + 1..])
  }

  /** The index of the first `c` in `s`. */
  function IndexOf(s: string, c: char): (r: Option<nat>)
    ensures r.Some? ==> r.value < |s| && s[r.value] == c && forall i :: 0 <= i < r.value ==> s[i] != c
    ensures r.None? ==> forall i :: 0 <= i < |s| ==> s[i] != c
  {
    if s == [] then None
    else if s[0] == c then Some(0)
    else
      var r := IndexOf(s[1..], c);
      if r.None? then None else Some(r.value + 1)
  }

  /** The first `c` is where no earlier character is `c`. */
  lemma IndexOfFirst(s: string, c: char, k: nat)
    requires k < |s| && s[k] == c && forall i :: 0 <= i < k ==> s[i] != c
    ensures IndexOf(s, c) == Some(k)
  {
  }

  /** Whether the domain has a '.' that is neither its first nor its last character. */
  predicate InnerDot(d: string)
  {
    exists j :: 0 < j < |d| - 1 && d[j] == '.'
  }

  /** `isValidEmail(email)`: the address holds no white space, its first '@'
      has something before it, nothing after it is another '@', and the part
      after it has an inner '.'. */
  function IsValidEmail(email: string): bool
  {
    var at := IndexOf(email, '@');
    && at.Some? && at.value > 0
    && NoWhitespace(email)
    && AllPlain(email[at.value + 1..])
    && InnerDot(email[at.value + 1..])
  }

  /** The check accepts exactly the addresses the regular expression matches. */
  lemma IsValidEmailMatchesPattern(email: string)
    ensures IsValidEmail(email) <==> EmailPattern(email)
  {
    var at := IndexOf(email, '@');
    if IsValidEmail(email) {
      var a := at.value;
      var d := email[a + 1..];
      var j :| 0 < j < |d| - 1 && d[j] == '.';
      var dot := a + 1 + j;
      assert email[a + 1..dot] == d[..j];
      assert email[dot + 1..] == d[j + 1..];
      assert AllPlain(email[..a]);
      assert AllPlain(email[a + 1..dot]);
      assert AllPlain(email[dot + 1..]);
    }
    if EmailPattern(email) {
      var a: nat, dot: nat :| && 0 < a && a + 1 < dot && dot + 1 < |email|
        && email[a] == '@' && email[dot] == '.'
        && AllPlain(email[..a]) && AllPlain(email[a + 1..dot]) && AllPlain(email[dot + 1..]);
      PatternPieces(email, a, dot);
      assert at == Some(a) by {
        assert forall i :: 0 <= i < a ==> email[i] != '@' by {
          forall i | 0 <= i < a ensures email[i] != '@' {
            assert email[..a][i] == email[i];
          }
        }
      }
      var d := email[a + 1..];
      assert d[dot - a - 1] == '.';
    }
  }

  /** The three plain parts and the two separators make a whole address
      without white space whose tail after the '@' is plain. */
  lemma PatternPieces(email: string, a: nat, dot: nat)
    requires 0 < a && a + 1 < dot && dot + 1 < |email|
    requires email[a] == '@' && email[dot] == '.'
    requires AllPlain(email[..a]) && AllPlain(email[a + 1..dot]) && AllPlain(email[dot + 1..])
    ensures NoWhitespace(email)
    ensures AllPlain(email[a + 1..])
  {
    forall i | 0 <= i < |email| ensures !IsJsWhitespace(email[i]) {
      if i < a {
        assert email[..a][i] == email[i];
      } else if a < i < dot {
        assert email[a + 1..dot][i - a - 1] == email[i];
      } else if i > dot {
        assert email[dot + 1..][i - dot - 1] == email[i];
      }
    }
    var tail := email[a + 1..];
    forall i | 0 <= i < |tail| ensures Plain(tail[i]) {
      var k := a + 1 + i;
      assert tail[i] == email[k];
      if k < dot {
        assert email[a + 1..dot][i] == email[k];
      } else if k > dot {
        assert email[dot + 1..][k - dot - 1] == email[k];
      }
    }
  }

  /** Visible ASCII characters are not white space. */
  lemma VisibleAscii(s: string)
    requires forall i :: 0 <= i < |s| ==> '!' <= s[i] <= '~'
    ensures NoWhitespace(s)
    ensures (forall i :: 0 <= i < |s| ==> s[i] != '@') ==> AllPlain(s)
  {
  }

  /** An address is valid given its first '@', the absence of white space,
      a plain tail and an inner dot in it. */
  lemma ValidFromParts(email: string, a: nat, j: nat)
    requires IndexOf(email, '@') == Some(a) && a > 0
    requires NoWhitespace(email) && AllPlain(email[a + 1..])
    requires 0 < j < |email[a + 1..]| - 1 && email[a + 1..][j] == '.'
    ensures IsValidEmail(email)
  {
  }

  /** An address the helper's tests accept. */
  lemma AcceptsPlainAddress(email: string)
    requires email == "user@example.com"
    ensures IsValidEmail(email)
  {
    assert IndexOf(email, '@') == Some(4) by { IndexOfFirst(email, '@', 4); }
    assert NoWhitespace(email) by { VisibleAscii(email); }
    assert AllPlain(email[5..]) by { VisibleAscii(email[5..]); }
    ValidFromParts(email, 4, 7);
  }

  /** An address with dots in both parts, which the tests accept. */
  lemma AcceptsDottedAddress(email: string)
    requires email == "john.doe@company.co.uk"
    ensures IsValidEmail(email)
  {
    assert AllPlain(email[..8]) by { VisibleAscii(email[..8]); }
    assert AllPlain(email[9..16]) by { VisibleAscii(email[9..16]); }
    assert AllPlain(email[17..]) by { VisibleAscii(email[17..]); }
    assert email[8] == '@' && email[16] == '.';
    IsValidEmailMatchesPattern(email);
  }

  /** An address with a '+' tag in the local part, which the tests accept. */
  lemma AcceptsTaggedAddress(email: string)
    requires email == "test+tag@domain.org"
    ensures IsValidEmail(email)
  {
    assert AllPlain(email[..8]) by { VisibleAscii(email[..8]); }
    assert AllPlain(email[9..15]) by { VisibleAscii(email[9..15]); }
    assert AllPlain(email[16..]) by { VisibleAscii(email[16..]); }
    assert email[8] == '@' && email[15] == '.';
    IsValidEmailMatchesPattern(email);
  }

  /** An address without '@', which the tests reject. */
  lemma RejectsMissingAt()
    ensures !IsValidEmail("invalid.email")
  {
    var e := "invalid.email";
    assert forall i :: 0 <= i < |e| ==> e[i] != '@';
  }

  /** The other rejected addresses of the tests: nothing before the '@',
      nothing after it, a space, and the empty string. */
  lemma RejectsMalformedAddresses()
    ensures !IsValidEmail("@example.com")
    ensures !IsValidEmail("user@")
    ensures !IsValidEmail("user @example.com")
    ensures !IsValidEmail("")
  {
    var e := "user @example.com";
    assert IsJsWhitespace(e[4]);
    IndexOfFirst("user@", '@', 4);
    IndexOfFirst("@example.com", '@', 0);
  }
}
