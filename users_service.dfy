/**
 * The client-side part of the user service: the guards it runs before a
 * request leaves, the payloads it builds, and the `hasMore` flag it adds to
 * every page of results. The requests themselves are not part of this model.
 */
module UsersService {
  import opened Wrappers
  import opened JsString
  import opened UserTypes
  import UserValidators

  /** The fields `validateUserData` looks at; a field the request lacks is None. */
  datatype CheckedFields = CheckedFields(
    cedula: Option<string>,
    email: Option<string>,
    password: Option<string>,
    adminPassword: Option<string>)

  /** A field that is present and not the empty string, the test `'f' in data && data.f` makes. */
  predicate Given(f: Option<string>) {
    f.Some? && f.value != ""
  }

  /** `message || fallback`. */
  function MessageOr(message: Option<string>, fallback: string): (r: string)
    ensures message.Some? && message.value != "" ==> r == message.value
    ensures !(message.Some? && message.value != "") ==> r == fallback
  {
    if message.Some? && message.value != "" then message.value else fallback
  }

  const AdminPrefix := "Contraseña de administrador: "

  /** The message a JavaScript template literal writes for a possibly undefined string. */
  function Interpolate(message: Option<string>): string {
    message.GetOr("undefined")
  }

  /**
   * `validateUserData`: the message of the first failing check, in the order
   * cédula, e-mail, password, administrator password; None when every given
   * field passes. Fields that are missing or empty are not checked.
   */
  function ValidateUserData(f: CheckedFields): (failure: Option<string>)
  {
    if Given(f.cedula) && !UserValidators.CedulaVerdict(f.cedula.value).isValid then
      Some(MessageOr(UserValidators.CedulaVerdict(f.cedula.value).message, "Cédula inválida"))
    else if Given(f.email) && !UserValidators.ValidateEmail(f.email.value).isValid then
      Some(MessageOr(UserValidators.ValidateEmail(f.email.value).message, "Email inválido"))
    else if Given(f.password) && !UserValidators.ValidatePassword(f.password.value).isValid then
      Some(MessageOr(UserValidators.ValidatePassword(f.password.value).message, "Contraseña inválida"))
    else if Given(f.adminPassword) && !UserValidators.ValidatePassword(f.adminPassword.value).isValid then
      Some(AdminPrefix + Interpolate(UserValidators.ValidatePassword(f.adminPassword.value).message))
    else None
  }

  /** The data passes exactly when every field it gives passes its own validator. */
  lemma ValidateUserDataPasses(f: CheckedFields)
    ensures ValidateUserData(f).None? <==>
              && (Given(f.cedula) ==> UserValidators.IsCedula(f.cedula.value))
              && (Given(f.email) ==> UserValidators.ValidateEmail(f.email.value).isValid)
              && (Given(f.password) ==> UserValidators.StrongPassword(f.password.value))
              && (Given(f.adminPassword) ==> UserValidators.StrongPassword(f.adminPassword.value))
  {
    if Given(f.cedula) {
      UserValidators.CedulaVerdictIff(f.cedula.value);
    }
  }

  /** A failing cédula is reported whatever the other fields hold, with the validator's own message. */
  lemma CedulaCheckedFirst(f: CheckedFields)
    requires Given(f.cedula) && !UserValidators.IsCedula(f.cedula.value)
    ensures ValidateUserData(f) == UserValidators.CedulaVerdict(f.cedula.value).message
    ensures ValidateUserData(f).Some?
  {
    UserValidators.CedulaVerdictIff(f.cedula.value);
  }

  /** An empty field is treated exactly like a missing one. */
  lemma EmptyFieldsSkipped(f: CheckedFields)
    ensures ValidateUserData(f.(cedula := Some(""))) == ValidateUserData(f.(cedula := None))
    ensures ValidateUserData(f.(email := Some(""))) == ValidateUserData(f.(email := None))
    ensures ValidateUserData(f.(password := Some(""))) == ValidateUserData(f.(password := None))
    ensures ValidateUserData(f.(adminPassword := Some(""))) == ValidateUserData(f.(adminPassword := None))
  {
  }

  /** When only the administrator password fails, the message is the validator's with the administrator prefix. */
  lemma AdminPasswordMessage(f: CheckedFields)
    requires !Given(f.cedula) && !Given(f.email) && !Given(f.password)
    requires Given(f.adminPassword) && !UserValidators.StrongPassword(f.adminPassword.value)
    ensures ValidateUserData(f) == Some(AdminPrefix + UserValidators.ValidatePassword(f.adminPassword.value).message.value)
  {
  }

  /** `hasMore`: further pages exist while the pages seen so far hold fewer users than the total. */
  function HasMore(page: int, limit: int, total: int): bool {
    page * limit < total
  }

  /** The number of pages `total` users fill at `limit` per page. */
  function PageCount(total: nat, limit: nat): nat
    requires limit > 0
  {
    (total + limit - 1) / limit
  }

  lemma MulStep(page: nat, q: nat, limit: nat)
    requires page < q
    ensures (page + 1) * limit <= q * limit
  {
    var d := q - (page + 1);
    assert q * limit == (page + 1) * limit + d * limit;
  }

  /** On positive page numbers and sizes, `hasMore` holds exactly before the last page. */
  lemma HasMoreBeforeLastPage(page: nat, limit: nat, total: nat)
    requires page >= 1 && limit >= 1
    ensures HasMore(page, limit, total) <==> page < PageCount(total, limit)
  {
    var q := PageCount(total, limit);
    assert q * limit <= total + limit - 1;
    assert (q + 1) * limit > total + limit - 1;
    assert (q + 1) * limit == q * limit + limit;
    if page < q {
      MulStep(page, q, limit);
      assert (page + 1) * limit == page * limit + limit;
    } else if page > q {
      MulStep(q, page, limit);
      assert (q + 1) * limit == q * limit + limit;
    }
  }

  /** `getUsers` and `searchUsers` hand back the server's page with `hasMore` recomputed. */
  function WithHasMore(response: UserListResponse): (r: UserListResponse)
    ensures r.hasMore <==> response.page * response.limit < response.total
    ensures r.(hasMore := response.hasMore) == response
  {
    response.(hasMore := HasMore(response.page, response.limit, response.total))
  }

  /** `IUserCreateRequest`, without the contact fields, which are passed through untouched. */
  datatype UserCreateRequest = UserCreateRequest(
    cedula: string,
    nombre: string,
    apellido: string,
    email: string,
    password: string,
    adminPassword: Option<string>,
    role: string,
    department: string,
    position: string,
    activo: Option<bool>,
    esDestinatario: Option<bool>)

  /** The body `createUser` posts: the request with the full name and the recipient flag settled. */
  datatype UserCreatePayload = UserCreatePayload(request: UserCreateRequest, nombreCompleto: string, esDestinatario: bool)

  function CreateFields(data: UserCreateRequest): CheckedFields {
    CheckedFields(Some(data.cedula), Some(data.email), Some(data.password), data.adminPassword)
  }

  /** `createUser` up to the request: the first validation failure, or the payload it posts. */
  function CreateUser(data: UserCreateRequest): (r: Result<UserCreatePayload>)
    ensures r.Failure? <==> ValidateUserData(CreateFields(data)).Some?
    ensures r.Failure? ==> r.error == ValidateUserData(CreateFields(data)).value
    ensures r.Success? ==> r.value.request == data
    ensures r.Success? ==> r.value.nombreCompleto == UserValidators.FullName(data.nombre, data.apellido)
    ensures r.Success? ==> (r.value.esDestinatario <==> data.esDestinatario != Some(false))
  {
    match ValidateUserData(CreateFields(data))
    case Some(message) => Failure(message)
    case None =>
      Success(UserCreatePayload(data, UserValidators.FullName(data.nombre, data.apellido), data.esDestinatario != Some(false)))
  }

  /** `IUserUpdateRequest`: everything but the id is optional. */
  datatype UserUpdateRequest = UserUpdateRequest(
    id: string,
    cedula: Option<string>,
    nombre: Option<string>,
    apellido: Option<string>,
    email: Option<string>,
    department: Option<string>,
    position: Option<string>,
    role: Option<string>,
    activo: Option<bool>,
    esDestinatario: Option<bool>)

  /** The body `updateUser` puts: the request without its id, plus a full name when one was recomputed. */
  datatype UserUpdatePayload = UserUpdatePayload(
    cedula: Option<string>,
    nombre: Option<string>,
    apellido: Option<string>,
    email: Option<string>,
    department: Option<string>,
    position: Option<string>,
    role: Option<string>,
    activo: Option<bool>,
    esDestinatario: Option<bool>,
    nombreCompleto: Option<string>)

  /** `a || b` on an optional string. */
  function OrElse(a: Option<string>, b: string): string {
    if Given(a) then a.value else b
  }

  /**
   * `updateUser` up to the request. `current` is the stored user that
   * `getUserById` returns; it is read only when a name part changes.
   */
  method UpdateUser(data: UserUpdateRequest, current: User) returns (r: Result<UserUpdatePayload>)
    ensures r.Failure? <==> ValidateUserData(CheckedFields(data.cedula, data.email, None, None)).Some?
    ensures r.Success? ==> r.value.(nombreCompleto := None)
                           == UserUpdatePayload(data.cedula, data.nombre, data.apellido, data.email, data.department,
                                                data.position, data.role, data.activo, data.esDestinatario, None)
    ensures r.Success? && (Given(data.nombre) || Given(data.apellido)) ==>
              r.value.nombreCompleto == Some(UserValidators.FullName(OrElse(data.nombre, current.nombre), OrElse(data.apellido, current.apellido)))
    ensures r.Success? && !(Given(data.nombre) || Given(data.apellido)) ==> r.value.nombreCompleto.None?
  {
    var failure := ValidateUserData(CheckedFields(data.cedula, data.email, None, None));
    if failure.Some? {
      return Failure(failure.value);
    }
    var payload := UserUpdatePayload(data.cedula, data.nombre, data.apellido, data.email, data.department,
                                     data.position, data.role, data.activo, data.esDestinatario, None);
    if Given(data.nombre) || Given(data.apellido) {
      payload := payload.(nombreCompleto := Some(UserValidators.FullName(OrElse(data.nombre, current.nombre), OrElse(data.apellido, current.apellido))));
    }
    return Success(payload);
  }

  const MismatchMessage := "Las contraseñas no coinciden"

  /** `changePassword` up to the request: strength first, then the confirmation. */
  function ChangePassword(newPassword: string, confirmPassword: string): (failure: Option<string>)
    ensures failure.None? <==> UserValidators.StrongPassword(newPassword) && newPassword == confirmPassword
    ensures !UserValidators.StrongPassword(newPassword) ==> failure == UserValidators.ValidatePassword(newPassword).message
    ensures UserValidators.StrongPassword(newPassword) && newPassword != confirmPassword ==> failure == Some(MismatchMessage)
  {
    var v := UserValidators.ValidatePassword(newPassword);
    if !v.isValid then Some(Interpolate(v.message))
    else if newPassword != confirmPassword then Some(MismatchMessage)
    else None
  }
}
