/**
 * The new-user form. Each checked field is validated as it changes, but only
 * while it is not empty, so clearing a field keeps its last verdict. Submit
 * runs its gates in a fixed order and shows the first failure; only when all
 * pass is the user created, and only a successful creation resets the form.
 */
module UserForm {
  import opened Wrappers
  import opened JsString
  import opened Seqs
  import opened UserValidators
  import opened UsersService

  const CedulaFallback := "Cédula inválida"
  const EmailFallback := "Email inválido"
  const PasswordFallback := "Contraseña inválida"
  const MismatchAlert := "Las contraseñas no coinciden"
  const AdminRequiredAlert := "Se requiere contraseña de administrador para este rol"
  const AdminFallback := "Contraseña de administrador inválida"
  const AdminMismatchAlert := "Las contraseñas de administrador no coinciden"
  const CreatedAlert := "\U{2705} Usuario creado exitosamente"
  const ErrorAlertPrefix := "\U{274C} Error: "

  /** The live verdict of each checked field. */
  datatype Validations = Validations(cedula: Verdict, email: Verdict, password: Verdict, adminPassword: Verdict)

  /** A field not validated yet: invalid, with an empty message. */
  const Unchecked := Verdict(false, Some(""))

  const InitialValidations := Validations(Unchecked, Unchecked, Unchecked, Unchecked)

  /** The form's defaults: empty text, the "docente" role, active and a recipient. */
  const DefaultData := UserCreateRequest("", "", "", "", "", None, "docente", "", "", Some(true), Some(true))

  /** The fields submit marks as touched. */
  const SubmitFields: set<string> := {"cedula", "nombre", "apellido", "email", "password", "department", "position"}

  /** How the `createUser` call ends: created, or rejected with the error's message (None when it has none). */
  datatype CreateOutcome = Created | Rejected(message: Option<string>)

  predicate NotDigit(c: char) {
    !IsAsciiDigit(c)
  }

  /** The cédula box's filter: the digits of the text, at most the first ten. */
  function SanitizeCedula(text: string): (r: string)
    ensures AllDigits(r) && |r| <= 10
    ensures forall k :: 0 <= k < |r| ==> r[k] in text
  {
    var digits := RemoveWhere(text, NotDigit);
    if |digits| <= 10 then digits else digits[..10]
  }

  /** Text that is already at most ten digits passes the filter unchanged. */
  lemma SanitizeKeepsDigits(text: string)
    requires AllDigits(text) && |text| <= 10
    ensures SanitizeCedula(text) == text
  {
    RemoveWhereKeep(text, NotDigit);
  }

  /** Filtering twice is filtering once. */
  lemma SanitizeIdempotent(text: string)
    ensures SanitizeCedula(SanitizeCedula(text)) == SanitizeCedula(text)
  {
    SanitizeKeepsDigits(SanitizeCedula(text));
  }

  /** The e-mail validator's answer, as the form keeps it. */
  function EmailCheck(email: string): (v: Verdict)
    ensures v.isValid <==> EmailFormat(email) && Institutional(email)
  {
    var r := ValidateEmail(email);
    Verdict(r.isValid, r.message)
  }

  /** The alert submit shows first, or None when every gate passes. */
  function FirstFailedGate(data: UserCreateRequest, v: Validations, confirmPassword: string,
                           adminPassword: string, confirmAdminPassword: string): (failure: Option<string>)
  {
    if !v.cedula.isValid then Some(MessageOr(v.cedula.message, CedulaFallback))
    else if !v.email.isValid then Some(MessageOr(v.email.message, EmailFallback))
    else if !v.password.isValid then Some(MessageOr(v.password.message, PasswordFallback))
    else if data.password != confirmPassword then Some(MismatchAlert)
    else if RequiresAdminPassword(data.role) then
      if adminPassword == "" then Some(AdminRequiredAlert)
      else if !v.adminPassword.isValid then Some(MessageOr(v.adminPassword.message, AdminFallback))
      else if adminPassword != confirmAdminPassword then Some(AdminMismatchAlert)
      else None
    else None
  }

  /**
   * Submit goes through exactly when the three verdicts are valid, the
   * password is confirmed, and for the admin and secretaria roles the admin
   * password is given, valid and confirmed.
   */
  lemma GatesPass(data: UserCreateRequest, v: Validations, confirmPassword: string,
                  adminPassword: string, confirmAdminPassword: string)
    ensures FirstFailedGate(data, v, confirmPassword, adminPassword, confirmAdminPassword).None? <==>
              && v.cedula.isValid && v.email.isValid && v.password.isValid
              && data.password == confirmPassword
              && (data.role == "admin" || data.role == "secretaria" ==>
                    adminPassword != "" && v.adminPassword.isValid && adminPassword == confirmAdminPassword)
  {
  }

  /**
   * The cédula gate comes first; a password mismatch is reported once the
   * three verdicts are valid, whatever the admin fields hold; and for the
   * other roles the admin fields are not consulted at all.
   */
  lemma GateOrder(data: UserCreateRequest, v: Validations, confirmPassword: string,
                  adminPassword: string, confirmAdminPassword: string)
    ensures !v.cedula.isValid ==>
              FirstFailedGate(data, v, confirmPassword, adminPassword, confirmAdminPassword) == Some(MessageOr(v.cedula.message, CedulaFallback))
    ensures v.cedula.isValid && v.email.isValid && v.password.isValid && data.password != confirmPassword ==>
              FirstFailedGate(data, v, confirmPassword, adminPassword, confirmAdminPassword) == Some(MismatchAlert)
    ensures !RequiresAdminPassword(data.role) ==>
              FirstFailedGate(data, v, confirmPassword, adminPassword, confirmAdminPassword) == FirstFailedGate(data, v, confirmPassword, "", "")
  {
  }

  /** The body `createUser` receives: the form data, with the admin password only for the roles that need one. */
  function Payload(data: UserCreateRequest, adminPassword: string): (p: UserCreateRequest)
    ensures p.adminPassword.Some? <==> RequiresAdminPassword(data.role)
    ensures p.(adminPassword := data.adminPassword) == data
  {
    data.(adminPassword := if RequiresAdminPassword(data.role) then Some(adminPassword) else None)
  }

  class UserForm {
    var formData: UserCreateRequest
    var adminPassword: string
    var confirmPassword: string
    var confirmAdminPassword: string
    var validations: Validations
    var touched: set<string>

    /** The cédula held is what the filter lets through. */
    predicate Valid()
      reads this
    {
      AllDigits(formData.cedula) && |formData.cedula| <= 10
    }

    constructor()
      ensures Valid()
      ensures formData == DefaultData && adminPassword == "" && confirmPassword == "" && confirmAdminPassword == ""
      ensures validations == InitialValidations && touched == {}
    {
      formData := DefaultData;
      adminPassword := "";
      confirmPassword := "";
      confirmAdminPassword := "";
      validations := InitialValidations;
      touched := {};
    }

    /** The cédula box: the filtered text is kept and, unless empty, validated. */
    method CedulaChanged(text: string)
      requires Valid()
      modifies this
      ensures Valid()
      ensures formData == old(formData).(cedula := SanitizeCedula(text))
      ensures SanitizeCedula(text) != "" ==> validations == old(validations).(cedula := CedulaVerdict(SanitizeCedula(text)))
      ensures SanitizeCedula(text) == "" ==> validations == old(validations)
      ensures adminPassword == old(adminPassword) && confirmPassword == old(confirmPassword)
      ensures confirmAdminPassword == old(confirmAdminPassword) && touched == old(touched)
    {
      formData := formData.(cedula := SanitizeCedula(text));
      if formData.cedula != "" {
        validations := validations.(cedula := CedulaVerdict(formData.cedula));
      }
    }

    /** The e-mail box: the text is kept in lower case and, unless empty, validated. */
    method EmailChanged(text: string)
      requires Valid()
      modifies this
      ensures Valid()
      ensures formData == old(formData).(email := ToLower(text))
      ensures text != "" ==> validations == old(validations).(email := EmailCheck(ToLower(text)))
      ensures text == "" ==> validations == old(validations)
      ensures adminPassword == old(adminPassword) && confirmPassword == old(confirmPassword)
      ensures confirmAdminPassword == old(confirmAdminPassword) && touched == old(touched)
    {
      var lowered := ToLower(text);
      formData := formData.(email := lowered);
      if lowered != "" {
        validations := validations.(email := EmailCheck(lowered));
      }
    }

    /** The password box: the text is kept and, unless empty, validated. */
    method PasswordChanged(text: string)
      requires Valid()
      modifies this
      ensures Valid()
      ensures formData == old(formData).(password := text)
      ensures text != "" ==> validations == old(validations).(password := ValidatePassword(text))
      ensures text == "" ==> validations == old(validations)
      ensures adminPassword == old(adminPassword) && confirmPassword == old(confirmPassword)
      ensures confirmAdminPassword == old(confirmAdminPassword) && touched == old(touched)
    {
      formData := formData.(password := text);
      if text != "" {
        validations := validations.(password := ValidatePassword(text));
      }
    }

    /** The admin password is validated when it is given and the role needs it. */
    method CheckAdminPassword()
      modifies this
      ensures adminPassword != "" && RequiresAdminPassword(formData.role) ==>
                validations == old(validations).(adminPassword := ValidatePassword(adminPassword))
      ensures !(adminPassword != "" && RequiresAdminPassword(formData.role)) ==> validations == old(validations)
      ensures formData == old(formData) && adminPassword == old(adminPassword) && confirmPassword == old(confirmPassword)
      ensures confirmAdminPassword == old(confirmAdminPassword) && touched == old(touched)
    {
      if adminPassword != "" && RequiresAdminPassword(formData.role) {
        validations := validations.(adminPassword := ValidatePassword(adminPassword));
      }
    }

    /** The admin password box. */
    method AdminPasswordChanged(text: string)
      requires Valid()
      modifies this
      ensures Valid()
      ensures adminPassword == text && formData == old(formData)
      ensures text != "" && RequiresAdminPassword(formData.role) ==>
                validations == old(validations).(adminPassword := ValidatePassword(text))
      ensures !(text != "" && RequiresAdminPassword(formData.role)) ==> validations == old(validations)
      ensures confirmPassword == old(confirmPassword) && confirmAdminPassword == old(confirmAdminPassword) && touched == old(touched)
    {
      adminPassword := text;
      CheckAdminPassword();
    }

    /** The role picker; a role that needs the admin password has the one typed validated. */
    method RoleChanged(role: string)
      requires Valid()
      modifies this
      ensures Valid()
      ensures formData == old(formData).(role := role) && adminPassword == old(adminPassword)
      ensures adminPassword != "" && RequiresAdminPassword(role) ==>
                validations == old(validations).(adminPassword := ValidatePassword(adminPassword))
      ensures !(adminPassword != "" && RequiresAdminPassword(role)) ==> validations == old(validations)
      ensures confirmPassword == old(confirmPassword) && confirmAdminPassword == old(confirmAdminPassword) && touched == old(touched)
    {
      formData := formData.(role := role);
      CheckAdminPassword();
    }

    method ConfirmPasswordChanged(text: string)
      modifies this
      ensures confirmPassword == text
      ensures formData == old(formData) && adminPassword == old(adminPassword) && confirmAdminPassword == old(confirmAdminPassword)
      ensures validations == old(validations) && touched == old(touched)
    {
      confirmPassword := text;
    }

    method ConfirmAdminPasswordChanged(text: string)
      modifies this
      ensures confirmAdminPassword == text
      ensures formData == old(formData) && adminPassword == old(adminPassword) && confirmPassword == old(confirmPassword)
      ensures validations == old(validations) && touched == old(touched)
    {
      confirmAdminPassword := text;
    }

    /** `handleBlur`: the field counts as touched from now on. */
    method Blur(field: string)
      modifies this
      ensures touched == old(touched) + {field}
      ensures formData == old(formData) && validations == old(validations)
    {
      touched := touched + {field};
    }

    /** `showError`. */
    predicate ShowError(field: string)
      reads this
    {
      field in touched
    }

    /**
     * `handleSubmit`: the gates in order, then the creation. Only a
     * successful creation resets the data and the passwords and forgets the
     * touched fields; the verdicts stay as they were, since the emptied
     * fields are not validated.
     */
    method HandleSubmit(outcome: CreateOutcome) returns (alert: string, sent: Option<UserCreateRequest>)
      requires Valid()
      modifies this
      ensures Valid()
      ensures validations == old(validations)
      ensures FirstFailedGate(old(formData), old(validations), old(confirmPassword), old(adminPassword), old(confirmAdminPassword)).Some? ==>
                && alert == FirstFailedGate(old(formData), old(validations), old(confirmPassword), old(adminPassword), old(confirmAdminPassword)).value
                && sent.None? && touched == SubmitFields && formData == old(formData) && adminPassword == old(adminPassword)
      ensures FirstFailedGate(old(formData), old(validations), old(confirmPassword), old(adminPassword), old(confirmAdminPassword)).None? ==>
                sent == Some(Payload(old(formData), old(adminPassword)))
      ensures FirstFailedGate(old(formData), old(validations), old(confirmPassword), old(adminPassword), old(confirmAdminPassword)).None? && outcome.Created? ==>
                && alert == CreatedAlert && formData == DefaultData && touched == {}
                && adminPassword == "" && confirmPassword == "" && confirmAdminPassword == ""
      ensures FirstFailedGate(old(formData), old(validations), old(confirmPassword), old(adminPassword), old(confirmAdminPassword)).None? && outcome.Rejected? ==>
                && alert == ErrorAlertPrefix + Interpolate(outcome.message)
                && touched == SubmitFields && formData == old(formData) && adminPassword == old(adminPassword)
    {
      touched := SubmitFields;
      sent := None;
      if !validations.cedula.isValid {
        return MessageOr(validations.cedula.message, CedulaFallback), None;
      }
      if !validations.email.isValid {
        return MessageOr(validations.email.message, EmailFallback), None;
      }
      if !validations.password.isValid {
        return MessageOr(validations.password.message, PasswordFallback), None;
      }
      if formData.password != confirmPassword {
        return MismatchAlert, None;
      }
      if RequiresAdminPassword(formData.role) {
        if adminPassword == "" {
          return AdminRequiredAlert, None;
        }
        if !validations.adminPassword.isValid {
          return MessageOr(validations.adminPassword.message, AdminFallback), None;
        }
        if adminPassword != confirmAdminPassword {
          return AdminMismatchAlert, None;
        }
      }
      var payload := Payload(formData, adminPassword);
      sent := Some(payload);
      match outcome {
        case Created =>
          alert := CreatedAlert;
          formData := DefaultData;
          adminPassword := "";
          confirmPassword := "";
          confirmAdminPassword := "";
          touched := {};
        case Rejected(message) =>
          alert := ErrorAlertPrefix + Interpolate(message);
      }
    }
  }
}
