/** The password rule that the invite-acceptance service and the
    accept-invite page both state: at least eight characters drawn from at
    least two of the classes ASCII letter, ASCII digit, anything else. */
module Passwords {
  import opened Text

  predicate IsAsciiLetter(c: char) { 'A' <= c <= 'Z' || 'a' <= c <= 'z' }

  /** A character of neither class, as `[^A-Za-z0-9]` matches it. */
  predicate IsOtherChar(c: char) { !IsAsciiLetter(c) && !IsDigit(c) }

  /** `/[A-Za-z]/.test(pw)`. */
  predicate HasLetter(pw: string) { exists i :: 0 <= i < |pw| && IsAsciiLetter(pw[i]) }

  /** `/[0-9]/.test(pw)`. */
  predicate HasDigit(pw: string) { exists i :: 0 <= i < |pw| && IsDigit(pw[i]) }

  /** `/[^A-Za-z0-9]/.test(pw)`. */
  predicate HasOther(pw: string) { exists i :: 0 <= i < |pw| && IsOtherChar(pw[i]) }

  /** The rule in words: at least eight UTF-16 code units, and some two
      classes both occur. */
  predicate PasswordRule(pw: string)
    ensures PasswordRule(pw) ==> |pw| >= 4 && (HasLetter(pw) || HasDigit(pw))
  {
    Utf16Length(pw) >= 8
    && ((HasLetter(pw) && HasDigit(pw)) || (HasLetter(pw) && HasOther(pw)) || (HasDigit(pw) && HasOther(pw)))
  }

  /** A password made of one class only is refused, whatever its length. */
  lemma {:induction false} SingleClassRefused(pw: string)
    requires (forall i :: 0 <= i < |pw| ==> IsAsciiLetter(pw[i]))
      || (forall i :: 0 <= i < |pw| ==> IsDigit(pw[i]))
      || (forall i :: 0 <= i < |pw| ==> IsOtherChar(pw[i]))
    ensures !PasswordRule(pw)
  {
    if forall i :: 0 <= i < |pw| ==> IsAsciiLetter(pw[i]) {
      assert !HasDigit(pw) && !HasOther(pw);
    } else if forall i :: 0 <= i < |pw| ==> IsDigit(pw[i]) {
      assert !HasLetter(pw) && !HasOther(pw);
    } else {
      assert !HasLetter(pw) && !HasDigit(pw);
    }
  }

  /** Every password of eight or more code units with a letter and a digit,
      say, is accepted; the rule does not ask for more. */
  lemma {:induction false} TwoClassesSuffice(pw: string, i: nat, j: nat)
    requires Utf16Length(pw) >= 8 && i < |pw| && j < |pw|
    requires (IsAsciiLetter(pw[i]) && IsDigit(pw[j])) || (IsAsciiLetter(pw[i]) && IsOtherChar(pw[j]))
      || (IsDigit(pw[i]) && IsOtherChar(pw[j]))
    ensures PasswordRule(pw)
  {
    if IsAsciiLetter(pw[i]) {
      assert HasLetter(pw);
    } else {
      assert HasDigit(pw);
    }
    if IsDigit(pw[j]) {
      assert HasDigit(pw);
    } else {
      assert HasOther(pw);
    }
  }

  /** A letter, a digit and three emoji are five characters but eight code
      units, so the rule accepts them; eight characters always suffice for
      the length test. */
  lemma AstralCharactersCountTwice()
    ensures PasswordRule("a1\U{1F600}\U{1F600}\U{1F600}")
    ensures |"a1\U{1F600}\U{1F600}\U{1F600}"| == 5
  {
    var pw := "a1\U{1F600}\U{1F600}\U{1F600}";
    assert pw[..4] == "a1\U{1F600}\U{1F600}";
    assert pw[..3] == "a1\U{1F600}";
    assert pw[..2] == "a1" && pw[..1] == "a";
    assert IsAsciiLetter(pw[0]) && IsDigit(pw[1]);
  }
}
