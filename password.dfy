/**
  `UserSerializer.validate_password`: Django's configured password
  validators first, then the portal's own policy, checked in a fixed
  order, the first failing check deciding the message. The character
  classes (`str.isupper`, `str.islower`, `str.isdigit`) and the outcome of
  Django's validators are parameters.
*/
module Passwords {
  import opened Support

  const MinLength: nat := 10
  const Specials := "!@#$%^&*()_+-=[]{}|;:,.<>?/~"

  const TooShort := "Password must be at least 10 characters long."
  const NoUpper := "Password must contain an uppercase letter."
  const NoLower := "Password must contain a lowercase letter."
  const NoDigit := "Password must contain a digit."
  const NoSpecial := "Password must contain a special character."

  /** A validated value, or the error messages the serializer reports. */
  datatype Verdict = Accepted(value: string) | Rejected(messages: seq<string>)

  /** The three character predicates the policy uses. */
  datatype CharClasses = CharClasses(isUpper: char -> bool, isLower: char -> bool, isDigit: char -> bool)

  /** `any(p(c) for c in s)`. */
  function Any(s: string, p: char -> bool): (b: bool)
    ensures b <==> exists i :: 0 <= i < |s| && p(s[i])
    decreases |s|
  {
    if s == [] then false
    else if p(s[0]) then true
    else
      assert forall i :: 1 <= i < |s| ==> s[i] == s[1..][i - 1];
      Any(s[1..], p)
  }

  predicate IsSpecial(c: char)
  {
    c in Specials
  }

  /** The message of the first custom check `value` fails, if any. */
  function FirstFailure(value: string, cc: CharClasses): (m: Option<string>)
    ensures m.None? <==>
      |value| >= MinLength && Any(value, cc.isUpper) && Any(value, cc.isLower)
      && Any(value, cc.isDigit) && Any(value, IsSpecial)
  {
    if |value| < MinLength then Some(TooShort)
    else if !Any(value, cc.isUpper) then Some(NoUpper)
    else if !Any(value, cc.isLower) then Some(NoLower)
    else if !Any(value, cc.isDigit) then Some(NoDigit)
    else if !Any(value, IsSpecial) then Some(NoSpecial)
    else None
  }

  /**
    The whole validation; `djangoErrors` are the messages of
    `django.contrib.auth.password_validation.validate_password(value)`,
    empty when it passes.
  */
  function ValidatePassword(value: string, djangoErrors: seq<string>, cc: CharClasses): (v: Verdict)
    ensures djangoErrors != [] ==> v == Rejected(djangoErrors)
    ensures v.Accepted? ==> v.value == value
  {
    if djangoErrors != [] then Rejected(djangoErrors)
    else match FirstFailure(value, cc)
      case Some(m) => Rejected([m])
      case None => Accepted(value)
  }

  /** Accepted exactly when Django's validators and all five checks pass; the value comes back as given. */
  lemma AcceptedIff(value: string, djangoErrors: seq<string>, cc: CharClasses)
    ensures ValidatePassword(value, djangoErrors, cc) == Accepted(value) <==>
      && djangoErrors == []
      && |value| >= MinLength
      && (exists i :: 0 <= i < |value| && cc.isUpper(value[i]))
      && (exists i :: 0 <= i < |value| && cc.isLower(value[i]))
      && (exists i :: 0 <= i < |value| && cc.isDigit(value[i]))
      && (exists i :: 0 <= i < |value| && value[i] in Specials)
  {
  }

  /**
    Each check rejects with its own message once Django's validators and
    every earlier check have passed: a later failure is never reported
    while an earlier one stands.
  */
  lemma FirstFailingCheckDecides(value: string, cc: CharClasses)
    ensures |value| < MinLength ==> ValidatePassword(value, [], cc) == Rejected([TooShort])
    ensures |value| >= MinLength && !Any(value, cc.isUpper) ==>
      ValidatePassword(value, [], cc) == Rejected([NoUpper])
    ensures |value| >= MinLength && Any(value, cc.isUpper) && !Any(value, cc.isLower) ==>
      ValidatePassword(value, [], cc) == Rejected([NoLower])
    ensures |value| >= MinLength && Any(value, cc.isUpper) && Any(value, cc.isLower) && !Any(value, cc.isDigit) ==>
      ValidatePassword(value, [], cc) == Rejected([NoDigit])
    ensures (|value| >= MinLength && Any(value, cc.isUpper) && Any(value, cc.isLower) && Any(value, cc.isDigit) &&
             !Any(value, IsSpecial)) ==> ValidatePassword(value, [], cc) == Rejected([NoSpecial])
  {
  }

  /** Every rejection carries exactly one message of the policy, or Django's own list. */
  lemma RejectionMessages(value: string, djangoErrors: seq<string>, cc: CharClasses)
    requires ValidatePassword(value, djangoErrors, cc).Rejected?
    ensures var ms := ValidatePassword(value, djangoErrors, cc).messages;
      ms == djangoErrors || ms in {[TooShort], [NoUpper], [NoLower], [NoDigit], [NoSpecial]}
  {
  }

  /** The ASCII reading of the three character classes. */
  function Ascii(): CharClasses
  {
    CharClasses(c => 'A' <= c <= 'Z', c => 'a' <= c <= 'z', c => '0' <= c <= '9')
  }

  lemma AsciiAccepted()
    ensures ValidatePassword("Kerala2024!", [], Ascii()) == Accepted("Kerala2024!")
  {
    var good := "Kerala2024!";
    assert good[10] == Specials[0];
    assert Ascii().isUpper(good[0]) && Ascii().isLower(good[1]) && Ascii().isDigit(good[6]) && IsSpecial(good[10]);
  }

  lemma AsciiNoUpper()
    ensures ValidatePassword("kerala2024!", [], Ascii()) == Rejected([NoUpper])
  {
    var lower := "kerala2024!";
    assert forall i :: 0 <= i < |lower| ==> !Ascii().isUpper(lower[i]);
  }

  lemma AsciiTooShort()
    ensures ValidatePassword("Ke1!", [], Ascii()) == Rejected([TooShort])
  {
  }
}
