/** `validatePasswordStrength`: five rules, each checked on its own, each
    contributing at most one message, in a fixed order. */
module PasswordPolicy {

  const MinLength: nat := 8

  const TooShort := "Password must be at least 8 characters long"
  const NoUpper := "Password must contain at least one uppercase letter"
  const NoLower := "Password must contain at least one lowercase letter"
  const NoDigit := "Password must contain at least one number"
  const NoSpecial := "Password must contain at least one special character"

  /** The five messages in the order the rules are checked. */
  const Messages: seq<string> := [TooShort, NoUpper, NoLower, NoDigit, NoSpecial]

  /** The character class `[!@#$%^&*()_+\-=\[\]{};':"\\|,.<>\/?]`. */
  predicate IsSpecial(c: char)
  {
    c == '!' || c == '@' || c == '#' || c == '$' || c == '%' || c == '^' || c == '&'
    || c == '*' || c == '(' || c == ')' || c == '_' || c == '+' || c == '-' || c == '='
    || c == '[' || c == ']' || c == '{' || c == '}' || c == ';' || c == '\'' || c == ':'
    || c == '"' || c == '\\' || c == '|' || c == ',' || c == '.' || c == '<' || c == '>'
    || c == '/' || c == '?'
  }

  predicate HasUpper(p: string) { exists i :: 0 <= i < |p| && 'A' <= p[i] <= 'Z' }
  predicate HasLower(p: string) { exists i :: 0 <= i < |p| && 'a' <= p[i] <= 'z' }
  predicate HasDigit(p: string) { exists i :: 0 <= i < |p| && '0' <= p[i] <= '9' }
  predicate HasSpecial(p: string) { exists i :: 0 <= i < |p| && IsSpecial(p[i]) }

  /** The outcome of each of the five rules, in the order they are checked. */
  function Checks(p: string): (c: seq<bool>)
    ensures |c| == 5
  {
    [|p| >= MinLength, HasUpper(p), HasLower(p), HasDigit(p), HasSpecial(p)]
  }

  /** Rule `k` of the five, numbered as `Messages` is. */
  predicate RuleHolds(k: nat, p: string)
    requires k < 5
  {
    Checks(p)[k]
  }

  /** The numbers of the checks from `k` on that fail in `c`, in order. */
  function FailedFrom(c: seq<bool>, k: nat): (v: seq<nat>)
    requires k <= |c|
    ensures forall i :: 0 <= i < |v| ==> k <= v[i] < |c|
    decreases |c| - k
  {
    if k == |c| then []
    else (if c[k] then [] else [k]) + FailedFrom(c, k + 1)
  }

  /** The rules `p` violates. */
  function Violated(p: string): seq<nat>
  {
    FailedFrom(Checks(p), 0)
  }

  /** The message of each rule in `v`, in the order of `v`. */
  function MessagesOf(v: seq<nat>): (e: seq<string>)
    requires forall i :: 0 <= i < |v| ==> v[i] < 5
    ensures |e| == |v|
  {
    seq(|v|, i requires 0 <= i < |v| => Messages[v[i]])
  }

  /** The `errors` list the checker returns for `p`. */
  function StrengthErrors(p: string): (e: seq<string>)
  {
    MessagesOf(Violated(p))
  }

  /** The checks from `k` on are listed exactly when they fail, in increasing order. */
  lemma {:induction false} FailedFromMeaning(c: seq<bool>, k: nat)
    requires k <= |c|
    ensures forall j :: k <= j < |c| ==> (j in FailedFrom(c, k) <==> !c[j])
    ensures forall i, j :: 0 <= i < j < |FailedFrom(c, k)| ==> FailedFrom(c, k)[i] < FailedFrom(c, k)[j]
    decreases |c| - k
  {
    if k < |c| {
      FailedFromMeaning(c, k + 1);
      var rest := FailedFrom(c, k + 1);
      var head: seq<nat> := if c[k] then [] else [k];
      var v := head + rest;
      assert FailedFrom(c, k) == v;
      assert k !in rest;
      forall j | k <= j < |c| ensures j in v <==> !c[j] {
        if j != k {
          assert j in v <==> j in rest;
        }
      }
      forall i, j | 0 <= i < j < |v| ensures v[i] < v[j] {
        assert v[j] == rest[j - |head|];
        if i >= |head| {
          assert v[i] == rest[i - |head|];
        }
      }
    }
  }

  /** A rule is listed exactly when violated, and the list is increasing. */
  lemma ViolatedRulesMeaning(p: string)
    ensures forall j :: 0 <= j < 5 ==> (j in Violated(p) <==> !RuleHolds(j, p))
    ensures forall i, j :: 0 <= i < j < |Violated(p)| ==> Violated(p)[i] < Violated(p)[j]
  {
    FailedFromMeaning(Checks(p), 0);
  }

  /** The five messages are pairwise different. */
  lemma MessagesDistinct()
    ensures forall i, j :: 0 <= i < j < 5 ==> Messages[i] != Messages[j]
  {
    assert |TooShort| == 43 && |NoUpper| == 51 && |NoLower| == 51 && |NoDigit| == 41 && |NoSpecial| == 52;
    assert NoUpper[35] == 'u' && NoLower[35] == 'l';
  }

  /** What the checker promises: it reports the message of each violated rule,
      once, in rule order (so the rules are all checked, none short-circuits
      another); a rule's message is present exactly when that rule is
      violated; and the list is empty exactly when all five rules hold. */
  lemma StrengthErrorsMeaning(p: string)
    ensures StrengthErrors(p) == MessagesOf(Violated(p))
    ensures forall i, j :: 0 <= i < j < |Violated(p)| ==> Violated(p)[i] < Violated(p)[j]
    ensures forall k :: 0 <= k < 5 ==> (k in Violated(p) <==> !RuleHolds(k, p))
    ensures forall k :: 0 <= k < 5 ==> (Messages[k] in StrengthErrors(p) <==> !RuleHolds(k, p))
    ensures |StrengthErrors(p)| <= 5
    ensures StrengthErrors(p) == [] <==>
      |p| >= MinLength && HasUpper(p) && HasLower(p) && HasDigit(p) && HasSpecial(p)
  {
    var v := Violated(p);
    ViolatedRulesMeaning(p);
    MessagesOfMembership(v);
    IncreasingBelowFive(v);
    AllRulesHold(p);
  }

  /** A rule's message is listed exactly when the rule's number is. */
  lemma MessagesOfMembership(v: seq<nat>)
    requires forall i :: 0 <= i < |v| ==> v[i] < 5
    ensures forall k :: 0 <= k < 5 ==> (Messages[k] in MessagesOf(v) <==> k in v)
  {
    MessagesDistinct();
    var e := MessagesOf(v);
    forall k | 0 <= k < 5
      ensures Messages[k] in e <==> k in v
    {
      if k in v {
        var i :| 0 <= i < |v| && v[i] == k;
        assert e[i] == Messages[k];
      }
      if Messages[k] in e {
        var i :| 0 <= i < |e| && e[i] == Messages[k];
        assert Messages[v[i]] == Messages[k];
      }
    }
  }

  /** No rule is violated exactly when all five hold. */
  lemma AllRulesHold(p: string)
    ensures Violated(p) == [] <==>
      |p| >= MinLength && HasUpper(p) && HasLower(p) && HasDigit(p) && HasSpecial(p)
  {
    ViolatedRulesMeaning(p);
    var v := Violated(p);
    assert RuleHolds(0, p) <==> |p| >= MinLength;
    assert RuleHolds(1, p) <==> HasUpper(p);
    assert RuleHolds(2, p) <==> HasLower(p);
    assert RuleHolds(3, p) <==> HasDigit(p);
    assert RuleHolds(4, p) <==> HasSpecial(p);
    if v == [] {
      assert forall k :: 0 <= k < 5 ==> k !in v;
    } else {
      assert v[0] in v;
    }
  }

  /** A strictly increasing list of numbers below 5 has at most five entries. */
  lemma {:induction false} IncreasingBelowFive(v: seq<nat>)
    requires forall i :: 0 <= i < |v| ==> v[i] < 5
    requires forall i, j :: 0 <= i < j < |v| ==> v[i] < v[j]
    ensures |v| <= 5 - (if v == [] then 0 else v[0])
  {
    if |v| > 1 {
      IncreasingBelowFive(v[1..]);
      assert v[1..][0] == v[1];
    }
  }

  /** The message list of a concatenation is the concatenation of the message lists. */
  lemma MessagesOfAppend(a: seq<nat>, b: seq<nat>)
    requires forall i :: 0 <= i < |a| ==> a[i] < 5
    requires forall i :: 0 <= i < |b| ==> b[i] < 5
    ensures MessagesOf(a + b) == MessagesOf(a) + MessagesOf(b)
  {
  }

  /** The message pushed, or not, by the check of rule `k`. */
  function Pushed(p: string, k: nat): (e: seq<string>)
    requires k < 5
    ensures e == [] <==> RuleHolds(k, p)
  {
    if RuleHolds(k, p) then [] else [Messages[k]]
  }

  /** `StrengthErrors` is built rule by rule, each check appending at most one message. */
  lemma {:induction false} StrengthErrorsFrom(p: string, k: nat)
    requires k < 5
    ensures MessagesOf(FailedFrom(Checks(p), k)) == Pushed(p, k) + MessagesOf(FailedFrom(Checks(p), k + 1))
  {
    var head: seq<nat> := if RuleHolds(k, p) then [] else [k];
    MessagesOfAppend(head, FailedFrom(Checks(p), k + 1));
  }

  lemma Reassociate(a: seq<string>, b: seq<string>, c: seq<string>, d: seq<string>, e: seq<string>)
    ensures a + (b + (c + (d + e))) == a + b + c + d + e
  {
  }

  /** `StrengthErrors` unrolled into the five checks, in order. */
  lemma StrengthErrorsUnrolled(p: string)
    ensures StrengthErrors(p) == Pushed(p, 0) + Pushed(p, 1) + Pushed(p, 2) + Pushed(p, 3) + Pushed(p, 4)
  {
    var m0, m1, m2, m3, m4 := Pushed(p, 0), Pushed(p, 1), Pushed(p, 2), Pushed(p, 3), Pushed(p, 4);
    StrengthErrorsFrom(p, 4);
    assert MessagesOf(FailedFrom(Checks(p), 5)) == [];
    var t4 := MessagesOf(FailedFrom(Checks(p), 4));
    assert t4 == m4;
    StrengthErrorsFrom(p, 3);
    var t3 := MessagesOf(FailedFrom(Checks(p), 3));
    assert t3 == m3 + m4;
    StrengthErrorsFrom(p, 2);
    var t2 := MessagesOf(FailedFrom(Checks(p), 2));
    assert t2 == m2 + (m3 + m4);
    StrengthErrorsFrom(p, 1);
    var t1 := MessagesOf(FailedFrom(Checks(p), 1));
    assert t1 == m1 + (m2 + (m3 + m4));
    StrengthErrorsFrom(p, 0);
    assert StrengthErrors(p) == m0 + (m1 + (m2 + (m3 + m4)));
    Reassociate(m0, m1, m2, m3, m4);
  }

  /** `validatePasswordStrength(password)`: each failing rule pushes its own
      message onto `errors`; `isValid` is whether `errors` stayed empty. */
  method ValidatePasswordStrength(password: string) returns (isValid: bool, errors: seq<string>)
    ensures errors == StrengthErrors(password)
    ensures isValid <==> errors == []
    ensures isValid <==> |password| >= MinLength && HasUpper(password) && HasLower(password)
                         && HasDigit(password) && HasSpecial(password)
  {
    errors := [];
    if |password| < MinLength {
      errors := errors + [TooShort];
    }
    assert errors == Pushed(password, 0);
    if !HasUpper(password) {
      errors := errors + [NoUpper];
    }
    assert errors == Pushed(password, 0) + Pushed(password, 1);
    if !HasLower(password) {
      errors := errors + [NoLower];
    }
    assert errors == Pushed(password, 0) + Pushed(password, 1) + Pushed(password, 2);
    if !HasDigit(password) {
      errors := errors + [NoDigit];
    }
    assert errors == Pushed(password, 0) + Pushed(password, 1) + Pushed(password, 2)
                     + Pushed(password, 3);
    if !HasSpecial(password) {
      errors := errors + [NoSpecial];
    }
    assert errors == Pushed(password, 0) + Pushed(password, 1) + Pushed(password, 2)
                     + Pushed(password, 3) + Pushed(password, 4);
    isValid := |errors| == 0;
    StrengthErrorsUnrolled(password);
    StrengthErrorsMeaning(password);
  }

  /** The strong password of the tests passes. */
  lemma StrongPasswordPasses(p: string)
    requires p == "SecurePass123!"
    ensures StrengthErrors(p) == []
  {
    assert 'S' == p[0] && 'e' == p[1] && '1' == p[10] && IsSpecial(p[13]);
    StrengthErrorsMeaning(p);
  }

  /** A password that breaks rule `k` and no other gets that rule's message alone. */
  lemma OnlyRuleBroken(p: string, k: nat)
    requires k < 5 && !RuleHolds(k, p)
    requires forall j :: 0 <= j < 5 && j != k ==> RuleHolds(j, p)
    ensures StrengthErrors(p) == [Messages[k]]
  {
    StrengthErrorsUnrolled(p);
  }

  /** The passwords of the tests that each break one rule. */
  lemma ShortPasswordFails(p: string)
    requires p == "Pass1!"
    ensures StrengthErrors(p) == [TooShort]
  {
    assert p[0] == 'P' && p[1] == 'a' && p[4] == '1' && IsSpecial(p[5]);
    OnlyRuleBroken(p, 0);
  }

  lemma NoUpperFails(p: string)
    requires p == "securepass123!"
    ensures StrengthErrors(p) == [NoUpper]
  {
    assert p[0] == 's' && p[10] == '1' && IsSpecial(p[13]);
    assert !HasUpper(p);
    OnlyRuleBroken(p, 1);
  }

  lemma NoLowerFails(p: string)
    requires p == "SECUREPASS123!"
    ensures StrengthErrors(p) == [NoLower]
  {
    assert p[0] == 'S' && p[10] == '1' && IsSpecial(p[13]);
    assert !HasLower(p);
    OnlyRuleBroken(p, 2);
  }

  lemma NoDigitFails(p: string)
    requires p == "SecurePass!"
    ensures StrengthErrors(p) == [NoDigit]
  {
    assert p[0] == 'S' && p[1] == 'e' && IsSpecial(p[10]);
    assert !HasDigit(p);
    OnlyRuleBroken(p, 3);
  }

  lemma NoSpecialFails(p: string)
    requires p == "SecurePass123"
    ensures StrengthErrors(p) == [NoSpecial]
  {
    assert p[0] == 'S' && p[1] == 'e' && p[10] == '1';
    assert !HasSpecial(p) by {
      forall i | 0 <= i < |p| ensures !IsSpecial(p[i]) {
      }
    }
    OnlyRuleBroken(p, 4);
  }

  /** `pass` violates four rules at once, each reported in rule order. */
  lemma WeakPasswordFails(p: string)
    requires p == "pass"
    ensures StrengthErrors(p) == [TooShort, NoUpper, NoDigit, NoSpecial]
  {
    assert p[0] == 'p';
    assert !HasUpper(p) && !HasDigit(p) && !HasSpecial(p);
    StrengthErrorsUnrolled(p);
  }

  /** `~` is not one of the special characters. */
  lemma TildeIsNotSpecial(p: string)
    requires p == "Pass~word1"
    ensures StrengthErrors(p) == [NoSpecial]
  {
    assert p[0] == 'P' && p[1] == 'a' && p[9] == '1';
    assert !HasSpecial(p) by {
      forall i | 0 <= i < |p| ensures !IsSpecial(p[i]) {
      }
    }
    OnlyRuleBroken(p, 4);
  }
}
