/**
 * The reset-password form: it reads the recovery token from the address,
 * re-checks the new password on every keystroke against its own list of
 * requirements, and sends the reset request only when the two passwords match
 * and every requirement is met.
 */
module ResetPasswordForm {
  import opened Wrappers
  import UserValidators

  const TokenMessage := "Token de recuperación no válido"
  const LengthMessage := "Debe tener al menos 8 caracteres"
  const UpperMessage := "Debe contener al menos una mayúscula"
  const LowerMessage := "Debe contener al menos una minúscula"
  const DigitMessage := "Debe contener al menos un número"
  const SpecialMessage := "Debe contener al menos un carácter especial (!@#$%^&*)"
  const MismatchMessage := "Las contraseñas no coinciden"
  const WeakMessage := "La contraseña no cumple con los requisitos de seguridad"
  const DefaultFailure := "Error al resetear contraseña"

  /** The class `[!@#$%^&*]` this form asks for. */
  const FormSpecials: string := "!@#$%^&*"

  function If(c: bool, m: string): seq<string> {
    if c then [m] else []
  }

  /** A message's place in the order the form checks its requirements; 5 for any other text. */
  function Rank(m: string): nat {
    if m == LengthMessage then 0
    else if m == UpperMessage then 1
    else if m == LowerMessage then 2
    else if m == DigitMessage then 3
    else if m == SpecialMessage then 4
    else 5
  }

  /** The form's `validatePassword`: one message for every requirement the password misses, in a fixed order. */
  function PasswordErrors(p: string): (r: seq<string>)
    ensures LengthMessage in r <==> |p| < 8
    ensures UpperMessage in r <==> !UserValidators.HasIn(p, 'A', 'Z')
    ensures LowerMessage in r <==> !UserValidators.HasIn(p, 'a', 'z')
    ensures DigitMessage in r <==> !UserValidators.HasIn(p, '0', '9')
    ensures SpecialMessage in r <==> !UserValidators.HasAnyOf(p, FormSpecials)
    ensures |r| <= 5
  {
    If(|p| < 8, LengthMessage)
    + If(!UserValidators.HasIn(p, 'A', 'Z'), UpperMessage)
    + If(!UserValidators.HasIn(p, 'a', 'z'), LowerMessage)
    + If(!UserValidators.HasIn(p, '0', '9'), DigitMessage)
    + If(!UserValidators.HasAnyOf(p, FormSpecials), SpecialMessage)
  }

  /** The ranks of `r` rise strictly and lie in `lo..hi - 1`. */
  predicate RanksIn(r: seq<string>, lo: nat, hi: nat) {
    && (forall i :: 0 <= i < |r| ==> lo <= Rank(r[i]) < hi)
    && (forall i, j :: 0 <= i < j < |r| ==> Rank(r[i]) < Rank(r[j]))
  }

  lemma RanksJoin(a: seq<string>, b: seq<string>, lo: nat, mid: nat, hi: nat)
    requires lo <= mid <= hi
    requires RanksIn(a, lo, mid) && RanksIn(b, mid, hi)
    ensures RanksIn(a + b, lo, hi)
  {
    var r := a + b;
    forall i | 0 <= i < |r|
      ensures lo <= Rank(r[i]) < hi
    {
      if i < |a| {
        assert r[i] == a[i];
      } else {
        assert r[i] == b[i - |a|];
      }
    }
    forall i, j | 0 <= i < j < |r|
      ensures Rank(r[i]) < Rank(r[j])
    {
      if j < |a| {
        assert r[i] == a[i] && r[j] == a[j];
      } else if i >= |a| {
        assert r[i] == b[i - |a|] && r[j] == b[j - |a|];
      } else {
        assert r[i] == a[i] && r[j] == b[j - |a|];
      }
    }
  }

  /** The five messages are distinct, so each has its own rank. */
  lemma RankValues()
    ensures Rank(LengthMessage) == 0 && Rank(UpperMessage) == 1 && Rank(LowerMessage) == 2
    ensures Rank(DigitMessage) == 3 && Rank(SpecialMessage) == 4
  {
    assert |LengthMessage| == |DigitMessage| == 32 && |UpperMessage| == |LowerMessage| == 36 && |SpecialMessage| == 54;
    assert LengthMessage[5] != DigitMessage[5];
    assert UpperMessage[28] != LowerMessage[28];
  }

  /** Whichever rules fail, their messages keep the rules' order. */
  lemma RulesOrdered(c0: bool, c1: bool, c2: bool, c3: bool, c4: bool)
    ensures RanksIn(If(c0, LengthMessage) + If(c1, UpperMessage) + If(c2, LowerMessage) + If(c3, DigitMessage) + If(c4, SpecialMessage), 0, 5)
  {
    var e0, e1, e2, e3, e4 := If(c0, LengthMessage), If(c1, UpperMessage), If(c2, LowerMessage), If(c3, DigitMessage), If(c4, SpecialMessage);
    RankValues();
    assert RanksIn(e0, 0, 1) && RanksIn(e1, 1, 2) && RanksIn(e2, 2, 3) && RanksIn(e3, 3, 4) && RanksIn(e4, 4, 5);
    RanksJoin(e0, e1, 0, 1, 2);
    RanksJoin(e0 + e1, e2, 0, 2, 3);
    RanksJoin(e0 + e1 + e2, e3, 0, 3, 4);
    RanksJoin(e0 + e1 + e2 + e3, e4, 0, 4, 5);
  }

  /**
   * The messages come in the order the rules are checked (length, upper
   * case, lower case, digit, special character), each at most once.
   */
  lemma PasswordErrorsOrdered(p: string)
    ensures forall i :: 0 <= i < |PasswordErrors(p)| ==> Rank(PasswordErrors(p)[i]) < 5
    ensures forall i, j :: 0 <= i < j < |PasswordErrors(p)| ==> Rank(PasswordErrors(p)[i]) < Rank(PasswordErrors(p)[j])
  {
    RulesOrdered(|p| < 8, !UserValidators.HasIn(p, 'A', 'Z'), !UserValidators.HasIn(p, 'a', 'z'),
                 !UserValidators.HasIn(p, '0', '9'), !UserValidators.HasAnyOf(p, FormSpecials));
  }

  /** The form accepts a password exactly when it misses no requirement. */
  lemma PasswordErrorsEmpty(p: string)
    ensures PasswordErrors(p) == [] <==>
              |p| >= 8 && UserValidators.HasIn(p, 'A', 'Z') && UserValidators.HasIn(p, 'a', 'z')
              && UserValidators.HasIn(p, '0', '9') && UserValidators.HasAnyOf(p, FormSpecials)
  {
    var r := PasswordErrors(p);
    if r != [] {
      assert r[0] in r;
    }
  }

  /** Every password the form accepts also passes the users' validator, whose special class is larger. */
  lemma FormStricterThanValidator(p: string)
    requires PasswordErrors(p) == []
    ensures UserValidators.ValidatePassword(p).isValid
  {
    PasswordErrorsEmpty(p);
    var k :| 0 <= k < |p| && p[k] in FormSpecials;
    assert p[k] in UserValidators.SpecialCharacters;
  }

  lemma SampleLacksFormSpecial(p: string)
    requires p == "Abcdefg1("
    ensures !UserValidators.HasAnyOf(p, FormSpecials)
  {
    forall k | 0 <= k < |p|
      ensures p[k] !in FormSpecials
    {
      assert p[k] == '(' || 'A' <= p[k] <= 'Z' || 'a' <= p[k] <= 'z' || '0' <= p[k] <= '9';
    }
  }

  /** The converse fails: a password whose only special character is `(` passes the validator and not the form. */
  lemma ValidatorLaxerThanForm()
    ensures exists p :: UserValidators.ValidatePassword(p).isValid && PasswordErrors(p) != []
  {
    var p := "Abcdefg1(";
    assert 'A' <= p[0] <= 'Z' && 'a' <= p[1] <= 'z' && '0' <= p[7] <= '9';
    assert p[8] in UserValidators.SpecialCharacters;
    SampleLacksFormSpecial(p);
    assert SpecialMessage in PasswordErrors(p);
    assert UserValidators.ValidatePassword(p).isValid && PasswordErrors(p) != [];
  }

  /** The call the form makes to the password-reset service. */
  datatype ResetRequest = ResetRequest(token: string, newPassword: string, confirmPassword: string)

  /** How the service call ended: an answer with its `success` flag, or an error with its message (empty when it had none). */
  datatype ResetOutcome = Answered(success: bool) | Threw(message: string)

  class ResetPasswordForm {
    var token: string
    var newPassword: string
    var confirmPassword: string
    var loading: bool
    var success: bool
    var error: string
    var validationErrors: seq<string>

    /** The list on screen always belongs to the password in the field. */
    predicate Valid()
      reads this
    {
      validationErrors == PasswordErrors(newPassword)
    }

    /** Whether the submit button is disabled. */
    function SubmitDisabled(): bool
      reads this
    {
      loading || |validationErrors| > 0 || newPassword != confirmPassword
    }

    constructor()
      ensures token == "" && newPassword == "" && confirmPassword == ""
      ensures !loading && !success && error == "" && validationErrors == []
    {
      token := "";
      newPassword := "";
      confirmPassword := "";
      loading := false;
      success := false;
      error := "";
      validationErrors := [];
    }

    /** The effect that reads `token` from the query string: a missing or empty token is reported. */
    method ReadToken(param: Option<string>)
      modifies this
      ensures param.Some? && param.value != "" ==> token == param.value && error == old(error)
      ensures !(param.Some? && param.value != "") ==> token == old(token) && error == TokenMessage
      ensures newPassword == old(newPassword) && confirmPassword == old(confirmPassword)
      ensures loading == old(loading) && success == old(success) && validationErrors == old(validationErrors)
    {
      if param.Some? && param.value != "" {
        token := param.value;
      } else {
        error := TokenMessage;
      }
    }

    /** `handlePasswordChange`: stores the password and re-checks it. */
    method ChangePassword(p: string)
      modifies this
      ensures newPassword == p && validationErrors == PasswordErrors(p) && Valid()
      ensures token == old(token) && confirmPassword == old(confirmPassword)
      ensures loading == old(loading) && success == old(success) && error == old(error)
    {
      newPassword := p;
      validationErrors := PasswordErrors(p);
    }

    /** The confirmation field's `onChange`. */
    method ChangeConfirm(p: string)
      modifies this
      ensures confirmPassword == p
      ensures token == old(token) && newPassword == old(newPassword) && validationErrors == old(validationErrors)
      ensures loading == old(loading) && success == old(success) && error == old(error)
    {
      confirmPassword := p;
    }

    /**
     * `handleSubmit`, run to completion with the service's `outcome`. It returns
     * the request it sent, or None when a check stopped it first.
     */
    method Submit(outcome: ResetOutcome) returns (request: Option<ResetRequest>)
      modifies this
      ensures request.Some? <==> old(newPassword) == old(confirmPassword) && PasswordErrors(old(newPassword)) == []
      ensures request.Some? ==> request.value == ResetRequest(old(token), old(newPassword), old(confirmPassword))
      ensures old(newPassword) != old(confirmPassword) ==> error == MismatchMessage
      ensures old(newPassword) == old(confirmPassword) && PasswordErrors(old(newPassword)) != [] ==> error == WeakMessage
      ensures request.Some? ==> !loading
      ensures request.Some? ==> success == (old(success) || outcome == Answered(true))
      ensures request.Some? && outcome.Answered? ==> error == ""
      ensures request.Some? && outcome.Threw? ==> error == (if outcome.message != "" then outcome.message else DefaultFailure)
      ensures request.None? ==> loading == old(loading) && success == old(success)
      ensures old(Valid()) && !old(SubmitDisabled()) ==> request.Some?
      ensures token == old(token) && newPassword == old(newPassword) && confirmPassword == old(confirmPassword)
      ensures validationErrors == old(validationErrors)
    {
      error := "";
      if newPassword != confirmPassword {
        error := MismatchMessage;
        return None;
      }
      var errors := PasswordErrors(newPassword);
      if |errors| > 0 {
        error := WeakMessage;
        return None;
      }
      loading := true;
      request := Some(ResetRequest(token, newPassword, confirmPassword));
      match outcome {
        case Answered(ok) =>
          if ok {
            success := true;
          }
        case Threw(message) =>
          error := if message != "" then message else DefaultFailure;
      }
      loading := false;
    }
  }
}
