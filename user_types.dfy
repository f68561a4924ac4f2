/**
 * The user records the user store, the user service and the recipient
 * selector exchange (`IUser`, `IUserFilters`, `IUserListResponse`).
 */
module UserTypes {
  import opened Wrappers

  /** `IUser`, with the fields the modelled code reads or writes. */
  datatype User = User(
    id: string,
    cedula: string,
    nombre: string,
    apellido: string,
    nombreCompleto: Option<string>,
    email: string,
    role: string,
    department: string,
    position: string,
    activo: bool,
    esDestinatario: bool)

  /** `IUserFilters`: every criterion is optional. */
  datatype UserFilters = UserFilters(
    role: Option<string>,
    department: Option<string>,
    activo: Option<bool>,
    esDestinatario: Option<bool>)

  const NoFilters := UserFilters(None, None, None, None)

  /** `IUserListResponse`: one page of users and the paging counters. */
  datatype UserListResponse = UserListResponse(
    success: bool,
    data: seq<User>,
    page: int,
    limit: int,
    total: int,
    hasMore: bool)
}
