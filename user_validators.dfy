/**
 * Validators for Ecuadorian users: the national identity number (cédula)
 * with its modulo-10 check digit, the institutional e-mail address of the
 * Universidad Técnica de Ambato, password strength, and the small helpers
 * the user forms share.
 */
module UserValidators {
  import opened Wrappers
  import opened JsString
  import opened Seqs

  /** The `{ isValid, message? }` answer of the cédula and password validators. */
  datatype Verdict = Verdict(isValid: bool, message: Option<string>)

  function Invalid(message: string): Verdict {
    Verdict(false, Some(message))
  }

  const Valid: Verdict := Verdict(true, None)

  const CedulaLengthMessage := "La cédula debe tener 10 dígitos"
  const CedulaDigitsMessage := "La cédula solo debe contener números"
  const CedulaProvinceMessage := "Los dos primeros dígitos deben estar entre 01 y 24"
  const CedulaThirdDigitMessage := "El tercer dígito debe ser menor a 6"
  const CedulaCheckDigitMessage := "La cédula no es válida (dígito verificador incorrecto)"

  /** The characters the validators strip from a cédula: `\s` and `-`. */
  predicate IsSpaceOrDash(c: char) {
    IsJsSpace(c) || c == '-'
  }

  /** The cédula with spaces and dashes removed. */
  function CleanCedula(cedula: string): (r: string)
    ensures forall k :: 0 <= k < |r| ==> !IsSpaceOrDash(r[k])
  {
    RemoveWhere(cedula, IsSpaceOrDash)
  }

  /** The values of a string of decimal digits. */
  function Digits(s: string): (ds: seq<nat>)
    requires AllDigits(s)
    ensures |ds| == |s|
    ensures forall k :: 0 <= k < |s| ==> ds[k] == DigitValue(s[k]) && ds[k] < 10
  {
    seq(|s|, k requires 0 <= k < |s| => DigitValue(s[k]))
  }

  /** A digit's contribution to the checksum: digits at even index are doubled, less 9 when that exceeds 9. */
  function Weighted(i: nat, d: nat): nat {
    if i % 2 == 0 then (if 2 * d > 9 then 2 * d - 9 else 2 * d) else d
  }

  /** The checksum of the digits of `ds`, each weighted by its index. */
  function WeightedSum(ds: seq<nat>): nat {
    if ds == [] then 0 else WeightedSum(ds[..|ds| - 1]) + Weighted(|ds| - 1, ds[|ds| - 1])
  }

  /** The check digit the first nine digits call for. */
  function CheckDigit(sum: nat): (r: nat)
    ensures r < 10
  {
    var residue := sum % 10;
    if residue == 0 then 0 else 10 - residue
  }

  /** `validateCedulaEcuatoriana`: the checks in the order the source makes them, the first failure's message. */
  function CedulaVerdict(cedula: string): Verdict {
    CleanVerdict(CleanCedula(cedula))
  }

  /** The checks `validateCedulaEcuatoriana` makes once spaces and dashes are gone. */
  function CleanVerdict(clean: string): Verdict {
    if |clean| != 10 then Invalid(CedulaLengthMessage)
    else if !AllDigits(clean) then Invalid(CedulaDigitsMessage)
    else
      var ds := Digits(clean);
      var province := DigitsValue(clean[..2]);
      if province < 1 || province > 24 then Invalid(CedulaProvinceMessage)
      else if ds[2] >= 6 then Invalid(CedulaThirdDigitMessage)
      else if CheckDigit(WeightedSum(ds[..9])) != ds[9] then Invalid(CedulaCheckDigitMessage)
      else Valid
  }

  /**
   * What a valid cédula is, stated independently of the order of the checks:
   * ten decimal digits once spaces and dashes are gone, a province code from
   * 01 to 24, a third digit below 6, and a weighted digit sum, check digit
   * included, that is a multiple of 10.
   */
  predicate IsCedula(cedula: string) {
    var clean := CleanCedula(cedula);
    && |clean| == 10
    && AllDigits(clean)
    && var ds := Digits(clean);
    && 1 <= ds[0] * 10 + ds[1] <= 24
    && ds[2] < 6
    && (WeightedSum(ds[..9]) + ds[9]) % 10 == 0
  }

  lemma TwoDigitsValue(s: string)
    requires |s| == 2 && AllDigits(s)
    ensures DigitsValue(s) == DigitValue(s[0]) * 10 + DigitValue(s[1])
  {
    assert s[..1][..0] == [];
    assert s[..1][0] == s[0];
    assert DigitsValue(s[..1]) == DigitValue(s[0]);
    assert s[..|s| - 1] == s[..1];
  }

  lemma CheckDigitIff(sum: nat, d: nat)
    requires d < 10
    ensures CheckDigit(sum) == d <==> (sum + d) % 10 == 0
  {
  }

  /** The verdict is valid exactly for the cédulas `IsCedula` describes, and carries a message exactly when it is not. */
  lemma CedulaVerdictIff(cedula: string)
    ensures CedulaVerdict(cedula).isValid <==> IsCedula(cedula)
    ensures CedulaVerdict(cedula).isValid <==> CedulaVerdict(cedula).message.None?
  {
    var clean := CleanCedula(cedula);
    if |clean| == 10 && AllDigits(clean) {
      var ds := Digits(clean);
      TwoDigitsValue(clean[..2]);
      CheckDigitIff(WeightedSum(ds[..9]), ds[9]);
    }
  }

  /** Spaces and dashes anywhere in the input do not change the verdict. */
  lemma CedulaVerdictClean(cedula: string)
    ensures CedulaVerdict(CleanCedula(cedula)) == CedulaVerdict(cedula)
  {
    RemoveWhereIdempotent(cedula, IsSpaceOrDash);
    assert CleanCedula(CleanCedula(cedula)) == CleanCedula(cedula);
  }

  /** `validateCedulaEcuatoriana`, with the checksum loop of the source. */
  method ValidateCedula(cedula: string) returns (r: Verdict)
    ensures r == CedulaVerdict(cedula)
  {
    var clean := CleanCedula(cedula);
    if |clean| != 10 {
      return Invalid(CedulaLengthMessage);
    }
    if !AllDigits(clean) {
      return Invalid(CedulaDigitsMessage);
    }
    var province := DigitsValue(clean[..2]);
    if province < 1 || province > 24 {
      return Invalid(CedulaProvinceMessage);
    }
    var digits := Digits(clean);
    if digits[2] >= 6 {
      return Invalid(CedulaThirdDigitMessage);
    }
    var sum := 0;
    for i := 0 to 9
      invariant sum == WeightedSum(digits[..i])
    {
      var value := digits[i];
      if i % 2 == 0 {
        value := value * 2;
        if value > 9 {
          value := value - 9;
        }
      }
      assert digits[..i + 1][..i] == digits[..i];
      sum := sum + value;
    }
    var residue := sum % 10;
    var expected := if residue == 0 then 0 else 10 - residue;
    if expected != digits[9] {
      return Invalid(CedulaCheckDigitMessage);
    }
    return Valid;
  }

  // ---------------------------------------------------------------------------
  // E-mail

  /** The `{ isValid, isInstitutional, message? }` answer of the e-mail validator. */
  datatype EmailVerdict = EmailVerdict(isValid: bool, isInstitutional: bool, message: Option<string>)

  const EmailFormatMessage := "El formato del email no es válido"
  const EmailDomainMessage := "Debe usar un email institucional (@uta.edu.ec)"

  /** The accepted domains, with their `@`. */
  const InstitutionalDomains: seq<string> := ["@uta.edu.ec", "@uta.ec"]

  /** A character of `[^\s@]`. */
  predicate Plain(c: char) {
    !IsJsSpace(c) && c != '@'
  }

  predicate AllPlain(s: string) {
    forall k :: 0 <= k < |s| ==> Plain(s[k])
  }

  /** A match of `^[^\s@]+@[^\s@]+\.[^\s@]+$` with the `@` at `i` and the `.` at `j`. */
  predicate EmailSplit(s: string, i: int, j: int) {
    && 0 < i && i + 1 < j && j + 1 < |s|
    && s[i] == '@' && s[j] == '.'
    && AllPlain(s[..i]) && AllPlain(s[i + 1..j]) && AllPlain(s[j + 1..])
  }

  /** Index of the first occurrence of `c` in `s`. */
  function IndexOf(s: string, c: char): (r: Option<nat>)
    ensures r.Some? ==> r.value < |s| && s[r.value] == c && forall k :: 0 <= k < r.value ==> s[k] != c
    ensures r.None? ==> forall k :: 0 <= k < |s| ==> s[k] != c
  {
    if s == [] then None
    else if s[0] == c then Some(0)
    else match IndexOf(s[1..], c)
      case None => None
      case Some(k) => Some(k + 1)
  }

  /**
   * The format test, decided directly: a non-empty name of plain characters
   * before the first `@`, and after it a domain of plain characters with a
   * `.` neither first nor last.
   */
  predicate EmailFormat(s: string) {
    match IndexOf(s, '@')
    case None => false
    case Some(i) =>
      var d := s[i + 1..];
      && i > 0 && AllPlain(s[..i]) && AllPlain(d)
      && exists j :: 1 <= j < |d| - 1 && d[j] == '.'
  }

  lemma EmailFormatSplit(s: string)
    requires EmailFormat(s)
    ensures exists i, j :: EmailSplit(s, i, j)
  {
    var i := IndexOf(s, '@').value;
    var d := s[i + 1..];
    var j :| 1 <= j < |d| - 1 && d[j] == '.';
    assert s[i + 1..i + 1 + j] == d[..j];
    assert s[i + 1 + j + 1..] == d[j + 1..];
    assert EmailSplit(s, i, i + 1 + j);
  }

  lemma SplitDomainPlain(s: string, i: int, j: int)
    requires EmailSplit(s, i, j)
    ensures AllPlain(s[i + 1..])
  {
    var d := s[i + 1..];
    forall k | 0 <= k < |d|
      ensures Plain(d[k])
    {
      if k < j - (i + 1) {
        assert d[k] == s[i + 1..j][k];
      } else if k > j - (i + 1) {
        assert d[k] == s[j + 1..][k - (j - i)];
      }
    }
  }

  lemma EmailSplitFormat(s: string, i: int, j: int)
    requires EmailSplit(s, i, j)
    ensures EmailFormat(s)
  {
    assert forall k :: 0 <= k < i ==> s[..i][k] == s[k];
    assert IndexOf(s, '@') == Some(i);
    SplitDomainPlain(s, i, j);
    assert s[i + 1..][j - (i + 1)] == '.';
  }

  /** The direct test accepts exactly the strings the regular expression matches. */
  lemma EmailFormatIff(s: string)
    ensures EmailFormat(s) <==> exists i, j :: EmailSplit(s, i, j)
  {
    if EmailFormat(s) {
      EmailFormatSplit(s);
    }
    if exists i, j :: EmailSplit(s, i, j) {
      var i, j :| EmailSplit(s, i, j);
      EmailSplitFormat(s, i, j);
    }
  }

  /** The domain test: the lower-cased address ends with one of the accepted domains. */
  predicate Institutional(email: string) {
    exists k :: 0 <= k < |InstitutionalDomains| && EndsWith(ToLower(email), InstitutionalDomains[k])
  }

  /** `validateInstitutionalEmail`. */
  function ValidateEmail(email: string): (r: EmailVerdict)
    ensures r.isValid == r.isInstitutional
    ensures r.isValid <==> EmailFormat(email) && Institutional(email)
    ensures r.isValid <==> r.message.None?
    ensures !EmailFormat(email) ==> r.message == Some(EmailFormatMessage)
    ensures EmailFormat(email) && !Institutional(email) ==> r.message == Some(EmailDomainMessage)
  {
    if !EmailFormat(email) then EmailVerdict(false, false, Some(EmailFormatMessage))
    else if !(EndsWith(ToLower(email), InstitutionalDomains[0]) || EndsWith(ToLower(email), InstitutionalDomains[1]))
    then EmailVerdict(false, false, Some(EmailDomainMessage))
    else EmailVerdict(true, true, None)
  }

  lemma ToLowerAt(c: char)
    ensures ToLowerChar(c) == '@' <==> c == '@'
  {
  }

  /** An accepted domain at the end of the lower-cased address starts at the address's only `@`. */
  lemma DomainAfterAt(email: string, i: nat, dom: string)
    requires IndexOf(email, '@') == Some(i) && AllPlain(email[i + 1..])
    requires |dom| >= 1 && dom[0] == '@' && EndsWith(ToLower(email), dom)
    ensures ToLower(email[i + 1..]) == dom[1..]
  {
    var lower := ToLower(email);
    var m := |email| - |dom|;
    assert lower[m] == dom[0];
    ToLowerAt(email[m]);
    assert m == i;
    assert ToLower(email[i + 1..]) == lower[m + 1..];
    assert lower[m + 1..] == lower[m..][1..];
  }

  /**
   * A valid address has exactly one `@`, and what follows it is `uta.edu.ec`
   * or `uta.ec` in some mix of upper and lower case.
   */
  lemma ValidEmailDomain(email: string)
    requires ValidateEmail(email).isValid
    ensures exists i :: 0 <= i < |email| && email[i] == '@'
                       && (ToLower(email[i + 1..]) == "uta.edu.ec" || ToLower(email[i + 1..]) == "uta.ec")
  {
    var i := IndexOf(email, '@').value;
    assert AllPlain(email[i + 1..]);
    if EndsWith(ToLower(email), "@uta.edu.ec") {
      DomainAfterAt(email, i, "@uta.edu.ec");
    } else {
      DomainAfterAt(email, i, "@uta.ec");
    }
  }

  // ---------------------------------------------------------------------------
  // Password

  const PasswordLengthMessage := "La contraseña debe tener al menos 8 caracteres"
  const PasswordUpperMessage := "La contraseña debe contener al menos una mayúscula"
  const PasswordLowerMessage := "La contraseña debe contener al menos una minúscula"
  const PasswordDigitMessage := "La contraseña debe contener al menos un número"
  const PasswordSpecialMessage := "La contraseña debe contener al menos un carácter especial"

  /** The class `[!@#$%^&*(),.?":{}|<>]`. */
  const SpecialCharacters: string := "!@#$%^&*(),.?\":{}|<>"

  predicate HasIn(p: string, lo: char, hi: char) {
    exists k :: 0 <= k < |p| && lo <= p[k] <= hi
  }

  predicate HasAnyOf(p: string, chars: string) {
    exists k :: 0 <= k < |p| && p[k] in chars
  }

  /** A strong password: eight characters or more, with an upper-case and a lower-case ASCII letter, a digit and a special character. */
  predicate StrongPassword(p: string) {
    |p| >= 8 && HasIn(p, 'A', 'Z') && HasIn(p, 'a', 'z') && HasIn(p, '0', '9') && HasAnyOf(p, SpecialCharacters)
  }

  /** `validatePassword`: the first requirement that fails, in the order length, upper, lower, digit, special. */
  function ValidatePassword(p: string): (r: Verdict)
    ensures r.isValid <==> StrongPassword(p)
    ensures r.isValid <==> r.message.None?
    ensures |p| < 8 ==> r == Invalid(PasswordLengthMessage)
    ensures |p| >= 8 && !HasIn(p, 'A', 'Z') ==> r == Invalid(PasswordUpperMessage)
    ensures |p| >= 8 && HasIn(p, 'A', 'Z') && !HasIn(p, 'a', 'z') ==> r == Invalid(PasswordLowerMessage)
    ensures |p| >= 8 && HasIn(p, 'A', 'Z') && HasIn(p, 'a', 'z') && !HasIn(p, '0', '9') ==> r == Invalid(PasswordDigitMessage)
    ensures |p| >= 8 && HasIn(p, 'A', 'Z') && HasIn(p, 'a', 'z') && HasIn(p, '0', '9') && !HasAnyOf(p, SpecialCharacters) ==> r == Invalid(PasswordSpecialMessage)
  {
    if |p| < 8 then Invalid(PasswordLengthMessage)
    else if !HasIn(p, 'A', 'Z') then Invalid(PasswordUpperMessage)
    else if !HasIn(p, 'a', 'z') then Invalid(PasswordLowerMessage)
    else if !HasIn(p, '0', '9') then Invalid(PasswordDigitMessage)
    else if !HasAnyOf(p, SpecialCharacters) then Invalid(PasswordSpecialMessage)
    else Valid
  }

  // ---------------------------------------------------------------------------
  // Helpers

  /** `formatCedula`: ten characters once cleaned are written `XXX-XXXXXXX`; anything else is returned as given. */
  function FormatCedula(cedula: string): (r: string)
    ensures |CleanCedula(cedula)| == 10 ==> r == CleanCedula(cedula)[..3] + "-" + CleanCedula(cedula)[3..]
    ensures |CleanCedula(cedula)| != 10 ==> r == cedula
  {
    var clean := CleanCedula(cedula);
    if |clean| == 10 then clean[..3] + "-" + clean[3..10] else cedula
  }

  /** Formatting leaves the cleaned cédula as it was, so it never changes the verdict. */
  lemma FormatCedulaClean(cedula: string)
    ensures CleanCedula(FormatCedula(cedula)) == CleanCedula(cedula)
  {
    var clean := CleanCedula(cedula);
    if |clean| == 10 {
      var a, b := clean[..3], clean[3..];
      assert FormatCedula(cedula) == (a + "-") + b;
      RemoveWhereAppend(a + "-", b, IsSpaceOrDash);
      RemoveWhereAppend(a, "-", IsSpaceOrDash);
      assert RemoveWhere("-", IsSpaceOrDash) == [];
      RemoveWhereAppend(a, b, IsSpaceOrDash);
      assert a + b == clean;
      RemoveWhereIdempotent(cedula, IsSpaceOrDash);
    }
  }

  /** Formatting never changes the verdict. */
  lemma FormatCedulaVerdict(cedula: string)
    ensures CedulaVerdict(FormatCedula(cedula)) == CedulaVerdict(cedula)
  {
    FormatCedulaClean(cedula);
  }

  /** Formatting twice is formatting once. */
  lemma FormatCedulaIdempotent(cedula: string)
    ensures FormatCedula(FormatCedula(cedula)) == FormatCedula(cedula)
  {
    FormatCedulaClean(cedula);
  }

  /** `generateFullName`: the trimmed first and last names, with one space between them. */
  function FullName(nombre: string, apellido: string): (r: string)
    ensures |r| == |Trim(nombre)| + 1 + |Trim(apellido)|
    ensures r[..|Trim(nombre)|] == Trim(nombre) && r[|Trim(nombre)|] == ' ' && r[|Trim(nombre)| + 1..] == Trim(apellido)
  {
    Trim(nombre) + " " + Trim(apellido)
  }

  /** Names that are already trimmed give the same full name as the raw ones. */
  lemma FullNameOfTrimmed(nombre: string, apellido: string)
    ensures FullName(Trim(nombre), Trim(apellido)) == FullName(nombre, apellido)
  {
    TrimIdempotent(nombre);
    TrimIdempotent(apellido);
  }

  /** Descriptions of the known roles. */
  const RoleDescriptions: map<string, string> := map[
    "admin" := "Administrador del Sistema",
    "secretaria" := "Secretaria/Asistente Administrativa",
    "docente" := "Docente/Profesor",
    "viewer" := "Visualizador (Solo lectura)"
  ]

  /** `getRoleDescription`: the description of a known role, any other role as given. */
  function RoleDescription(role: string): (r: string)
    ensures role in RoleDescriptions ==> r == RoleDescriptions[role] && r != role
    ensures role !in RoleDescriptions ==> r == role
  {
    if role in RoleDescriptions && RoleDescriptions[role] != "" then RoleDescriptions[role] else role
  }

  /** `requiresAdminPassword`: the roles whose creation needs an administrator's password. */
  function RequiresAdminPassword(role: string): (r: bool)
    ensures r ==> role in RoleDescriptions
    ensures r <==> role == "admin" || role == "secretaria"
  {
    role in ["admin", "secretaria"]
  }
}
