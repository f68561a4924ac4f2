# A verified model of the swartzkrip client core

This project models the browser side of swartzkrip in Dafny. Swartzkrip is a
Next.js application where staff of the Universidad Técnica de Ambato write,
upload, send and receive official documents and PDFs. The model covers:

- **The Vigenère cipher** (`vigenere.dfy`). Text is written as UTF-8, then as
  Base64. Each code unit is shifted by the key modulo 256, and the result is
  written as Base64 again. Node's `Buffer` conversions are modelled in
  `utf8.dfy`, `base64.dfy` and `bytes.dfy`.
- **The validators for Ecuadorian users** (`user_validators.dfy`): the cédula
  and its modulo-10 check digit, the institutional e-mail, password strength,
  cédula formatting, full names and roles.
- **The client side of the user service** (`users_service.dfy`): the guards
  run before a request leaves, the payloads it builds, and the `hasMore` flag
  of each result page.
- **The singleton stores**, as classes whose `state` field every action
  replaces: users (`user_store.dfy`), official documents
  (`documento_store.dfy`), PDFs (`pdf_store.dfy`) and authentication
  (`auth_store.dfy`).
  - The document, PDF and authentication stores keep a ghost trace
    `published` of every state they hand to their listeners. It shows the
    intermediate LOADING states.
  - A service call is a parameter: its reply, or None when it throws.
- **The session bookkeeping** of `tokenManager` (`token_manager.dfy`).
  `localStorage` is a map, the presence of `window` is a flag, and the clock
  is a parameter.
- **The route middleware** (`middleware.dfy`). Whether the NextAuth token is
  present is a parameter.
- **The React components**, as classes whose fields are the components'
  state and whose methods are their handlers: the reset-password form, the
  new-user form, the PDF form, the recipient selector, the two PDF viewers
  and the document list. Shared pieces are modelled once: the viewers' paging
  and rotation (`page_nav.dfy`), the JavaScript string functions the code
  relies on (`js_string.dfy`), and the list operations the stores use
  (`seqs.dfy`).
- **The three upload methods** of the PDF upload example (`upload_pdf.dfy`):
  whole, in chunks of 1 MiB, and through `btoa`.

Every loop of the source is a method with invariants, proved against a
function that specifies it. The lemmas state what the code promises: round
trips, which error wins, which states a store publishes, and what stays
unchanged.

## Model

| member | source | states |
|---|---|---|
| Vigenere.ChooseKey | core/crypto/vigenere.ts:11 | the configured key when it is set and non-empty, otherwise `SWARTZKRIP2025` |
| Vigenere.JsRem | core/crypto/vigenere.ts:62 | JavaScript's `%`: the remainder has the sign of the dividend and is below the divisor in size |
| Vigenere.ShiftDownUp | core/crypto/vigenere.ts:37-63 | subtracting a key code modulo 256, with the negative remainder corrected, undoes adding it modulo 256 for every byte |
| Vigenere.EncryptUnits | core/crypto/vigenere.ts:32-39 | one output byte per input code, each shifted by the key code at the same position modulo the key's length |
| Vigenere.DecryptUnits | core/crypto/vigenere.ts:57-66 | one output byte per input code, each shifted back by the key code at the same position modulo the key's length |
| Vigenere.DecryptEncryptUnits | core/crypto/vigenere.ts:32-66 | the inner decryption loop undoes the inner encryption loop for every byte string and every key |
| Vigenere.Armored | core/crypto/vigenere.ts:28 | the UTF-8 bytes of the text in Base64 consist of ASCII characters only |
| Vigenere.DecryptEncrypt | core/crypto/vigenere.ts:24-74 | `decrypt(encrypt(t)) == t` for every key and every text, the empty text included |
| Vigenere.EncryptLength | core/crypto/vigenere.ts:28-42 | the ciphertext's length is the Base64 length of the armored text, which is the Base64 length of the UTF-8 bytes |
| Vigenere.VigenereCipher.constructor | core/crypto/vigenere.ts:10-12 | the key is chosen from the environment value by `ChooseKey` |
| Vigenere.EncryptSpec | core/crypto/vigenere.ts:24-43 | the encryption on whole values: UTF-8, Base64, each code shifted by the key modulo 256, Base64 again; its inverse is shown by `DecryptEncrypt` and the loop of `VigenereCipher.Encrypt` is proved equal to it |
| Vigenere.VigenereCipher.Encrypt | core/crypto/vigenere.ts:24-43 | the loop's result is the encryption function of the key and the text |
| Vigenere.DecryptSpec | core/crypto/vigenere.ts:48-74 | the decryption on whole values: Base64 decoded, each code shifted back and made non-negative, Base64 and UTF-8 decoded; `DecryptEncrypt` proves it undoes `EncryptSpec` |
| Vigenere.VigenereCipher.Decrypt | core/crypto/vigenere.ts:48-74 | the loop's result is the decryption function of the key and the ciphertext |
| Vigenere.VigenereCipher.EncryptJson | core/crypto/vigenere.ts:79-82 | the encryption of the serialised value |
| Vigenere.VigenereCipher.DecryptJson | core/crypto/vigenere.ts:87-95 | the parse of the decrypted text, None when the parse fails |
| Vigenere.DecryptJsonEncryptJson | core/crypto/vigenere.ts:79-95 | a value whose serialisation parses back is recovered from its encrypted JSON |
| Vigenere.DecryptJsonEmpty | core/crypto/vigenere.ts:49-95 | an empty ciphertext decrypts to the empty text, whose parse fails, giving null |
| Base64.Encode | core/crypto/vigenere.ts:28 | the Base64 text of a byte string, four characters for every started group of three bytes |
| Base64.DecodeEncode | core/crypto/vigenere.ts:53-69 | decoding the Base64 text of bytes gives back the bytes |
| Utf8.DecodeEncode | core/crypto/vigenere.ts:28-69 | decoding the UTF-8 bytes of a text gives back the text |
| Bytes.BinaryRoundTrip | core/crypto/vigenere.ts:42-53 | a byte string read as a binary (Latin-1) string and written back is unchanged |
| UserValidators.CleanCedula | features/users/data/validators/userValidators.ts:14 | no white space and no dash remains |
| UserValidators.CheckDigit | features/users/data/validators/userValidators.ts:69-70 | the check digit is a decimal digit |
| UserValidators.CheckDigitIff | features/users/data/validators/userValidators.ts:69-72 | the computed digit equals `d` exactly when `sum + d` is a multiple of 10 |
| UserValidators.CedulaVerdict | features/users/data/validators/userValidators.ts:12-82 | the verdict on the cédula with spaces and hyphens removed first; characterised by `CedulaVerdictIff` and `CedulaVerdictClean` |
| UserValidators.CleanVerdict | features/users/data/validators/userValidators.ts:18-82 | the first failing rule on a cleaned cédula (ten characters, digits only, province 01 to 24, third digit below 6, check digit), each with its message |
| UserValidators.IsCedula | features/users/data/validators/userValidators.ts:18-82 | the independent definition of a valid cédula that `CedulaVerdictIff` matches the verdict against |
| UserValidators.CedulaVerdictIff | features/users/data/validators/userValidators.ts:12-82 | a cédula is accepted exactly when, once cleaned, it has ten digits, a province from 01 to 24, a third digit below 6 and a matching modulo-10 check digit; accepted exactly when no message is given |
| UserValidators.CedulaVerdictClean | features/users/data/validators/userValidators.ts:14 | cleaning the cédula first does not change the verdict |
| UserValidators.ValidateCedula | features/users/data/validators/userValidators.ts:12-82 | the loop over the first nine digits gives the verdict of `CedulaVerdict`, message included |
| UserValidators.IndexOf | features/users/data/validators/userValidators.ts:89 | the position of the first occurrence of the character, or None when there is none |
| UserValidators.EmailFormat | features/users/data/validators/userValidators.ts:89 | the pattern `^[^\s@]+@[^\s@]+\.[^\s@]+$`, split into its parts by `EmailFormatIff` |
| UserValidators.EmailFormatIff | features/users/data/validators/userValidators.ts:89 | the e-mail pattern holds exactly when there is one `@` with a non-empty local part before it and a domain after it holding a dot with non-empty text on both sides, no white space anywhere |
| UserValidators.ValidateEmail | features/users/data/validators/userValidators.ts:87-121 | valid exactly when institutional, exactly when the pattern holds and the lower-cased address ends in `@uta.edu.ec` or `@uta.ec`, exactly when no message is given; a pattern failure gives the format message, and a well-formed address outside the two domains gives the institutional-address message |
| UserValidators.Institutional | features/users/data/validators/userValidators.ts:100-107 | the lower-cased address ends in `@uta.edu.ec` or `@uta.ec`; `ValidateEmail` accepts exactly these well-formed addresses |
| UserValidators.ValidEmailDomain | features/users/data/validators/userValidators.ts:100-107 | an accepted address has an `@` after which the lower-cased domain is `uta.edu.ec` or `uta.ec` |
| UserValidators.StrongPassword | features/users/data/validators/userValidators.ts:126-165 | eight characters or more with an upper-case letter, a lower-case letter, a digit and a special character; `ValidatePassword` is valid exactly when it holds |
| UserValidators.ValidatePassword | features/users/data/validators/userValidators.ts:126-165 | valid exactly when at least 8 long with an upper-case letter, a lower-case letter, a digit and one of the listed specials; otherwise the message of the first failing check, in the order length, upper case, lower case, digit, special |
| UserValidators.FormatCedula | features/users/data/validators/userValidators.ts:170-176 | a cleaned cédula of ten characters gets a dash after the third; anything else comes back unchanged |
| UserValidators.FormatCedulaClean | features/users/data/validators/userValidators.ts:170-176 | formatting does not change the cleaned cédula |
| UserValidators.FormatCedulaVerdict | features/users/data/validators/userValidators.ts:12-176 | a formatted cédula gets the same verdict as the original |
| UserValidators.FormatCedulaIdempotent | features/users/data/validators/userValidators.ts:170-176 | formatting twice is formatting once |
| UserValidators.FullName | features/users/data/validators/userValidators.ts:181-183 | the trimmed first name, one space, the trimmed last name |
| UserValidators.FullNameOfTrimmed | features/users/data/validators/userValidators.ts:181-183 | trimming the names first does not change the full name |
| UserValidators.RoleDescription | features/users/data/validators/userValidators.ts:188-197 | a known role gets its description, which differs from the role; any other role is returned as is |
| UserValidators.RequiresAdminPassword | features/users/data/validators/userValidators.ts:202-204 | true exactly for `admin` and `secretaria`, both known roles |
| ResetPasswordForm.PasswordErrors | features/auth/presentation/components/resetPasswordForm.tsx:40-60 | each of the five messages is listed exactly when its rule fails (length below 8, no upper-case, no lower-case, no digit, none of `!@#$%^&*`), at most five messages |
| ResetPasswordForm.PasswordErrorsOrdered | features/auth/presentation/components/resetPasswordForm.tsx:40-60 | the messages follow the order the rules are pushed (length, upper case, lower case, digit, special), each at most once |
| ResetPasswordForm.PasswordErrorsEmpty | features/auth/presentation/components/resetPasswordForm.tsx:40-60 | no message exactly when all five rules hold |
| ResetPasswordForm.FormStricterThanValidator | features/auth/presentation/components/resetPasswordForm.tsx:55 | a password the form accepts is also accepted by the shared password validator |
| ResetPasswordForm.ValidatorLaxerThanForm | features/auth/presentation/components/resetPasswordForm.tsx:55 | some password the shared validator accepts is refused by the form, whose special characters are fewer |
| ResetPasswordForm.ResetPasswordForm.constructor | features/auth/presentation/components/resetPasswordForm.tsx:14-29 | empty token, fields and messages; not loading, no success |
| ResetPasswordForm.ResetPasswordForm.ReadToken | features/auth/presentation/components/resetPasswordForm.tsx:31-38 | a non-empty `token` parameter is taken; otherwise the invalid-token error is shown; nothing else changes |
| ResetPasswordForm.ResetPasswordForm.ChangePassword | features/auth/presentation/components/resetPasswordForm.tsx:62-66 | the new password is stored and its rule messages recomputed; nothing else changes |
| ResetPasswordForm.ResetPasswordForm.ChangeConfirm | features/auth/presentation/components/resetPasswordForm.tsx:217 | only the confirmation changes |
| ResetPasswordForm.ResetPasswordForm.SubmitDisabled | features/auth/presentation/components/resetPasswordForm.tsx:244 | the button is disabled while loading, while a rule fails, or while the two passwords differ |
| ResetPasswordForm.ResetPasswordForm.Submit | features/auth/presentation/components/resetPasswordForm.tsx:68-105 | the request is sent exactly when the passwords match and satisfy the rules, with the token and both passwords; a mismatch and a weak password give their errors; after a request loading is off, success follows a successful answer, a thrown error shows its message or the default; whenever the button is enabled the request is sent |
| UsersService.MessageOr | features/users/service/users.service.ts:42-58 | the error's own message when it is non-empty, otherwise the fallback |
| UsersService.ValidateUserData | features/users/service/users.service.ts:37-69 | the first failure among the given fields, cédula then e-mail then password then admin password; characterised by `ValidateUserDataPasses`, `CedulaCheckedFirst`, `EmptyFieldsSkipped` and `AdminPasswordMessage` |
| UsersService.ValidateUserDataPasses | features/users/service/users.service.ts:37-69 | validation passes exactly when every field that is given and non-empty passes its validator |
| UsersService.CedulaCheckedFirst | features/users/service/users.service.ts:39-44 | a given, refused cédula fails validation with the cédula validator's own message, whatever the other fields hold |
| UsersService.EmptyFieldsSkipped | features/users/service/users.service.ts:39-63 | an empty field is treated as an absent one |
| UsersService.AdminPasswordMessage | features/users/service/users.service.ts:63-67 | a weak administrator password alone fails with the prefixed message of the password validator |
| UsersService.HasMore | features/users/service/users.service.ts:88 | `page · limit < total`; `HasMoreBeforeLastPage` shows it means the page is not the last |
| UsersService.HasMoreBeforeLastPage | features/users/service/users.service.ts:88 | with page and limit at least 1, there are more users exactly when the page is before the last page |
| UsersService.WithHasMore | features/users/service/users.service.ts:88-93 | the reply with `hasMore` set exactly when `page · limit < total`, every other field unchanged |
| UsersService.CreateFields | features/users/service/users.service.ts:138-141 | a create request is validated on its cédula, e-mail and password, all present, and its optional admin password |
| UsersService.CreateUser | features/users/service/users.service.ts:138-170 | fails exactly when validation fails, with its message; otherwise the payload carries the request, the full name of the names, and `esDestinatario` true unless it was explicitly false |
| UsersService.UpdateUser | features/users/service/users.service.ts:175-208 | fails exactly when the cédula or the e-mail fails validation; otherwise the payload is the given fields, with a full name only when a first or last name is given, completed from the current user |
| UsersService.ChangePassword | features/users/service/users.service.ts:257-285 | succeeds exactly when the new password is strong and matches its confirmation; the strength message is checked before the mismatch |
| UserStore.WithUserAdded | features/users/context/user.store.ts:117-122 | the state `addUser` publishes; `RemoveUndoesAdd` shows removing the new user restores the old state |
| UserStore.WithUserUpdated | features/users/context/user.store.ts:124-130 | the state `updateUser` publishes; characterised by `UpdatedKeepsShape` and `UpdatedSelection` |
| UserStore.WithUserRemoved | features/users/context/user.store.ts:132-139 | the state `removeUser` publishes; characterised by `RemovedMembers` and `RemovedAbsent` |
| UserStore.UpdatedKeepsShape | features/users/context/user.store.ts:124-130 | updating keeps the list's length and every position's id, and leaves every other user untouched |
| UserStore.UpdatedSelection | features/users/context/user.store.ts:127-128 | the selection is replaced exactly when it is the updated user, and otherwise kept |
| UserStore.RemovedMembers | features/users/context/user.store.ts:132-139 | a user remains exactly when it was listed under another id; the selection never is the removed user |
| UserStore.RemovedAbsent | features/users/context/user.store.ts:132-139 | removing an id that is not listed keeps the list but still lowers the total by one |
| UserStore.RemoveUndoesAdd | features/users/context/user.store.ts:117-139 | removing a freshly added user whose id was new and not selected restores the state |
| UserStore.UserStore.constructor | features/users/context/user.store.ts:26-50 | the initial state |
| UserStore.UserStore.GetState | features/users/context/user.store.ts:70-72 | a copy of the state |
| UserStore.UserStore.SetUsers | features/users/context/user.store.ts:84-86 | only the user list changes |
| UserStore.UserStore.SetSelectedUser | features/users/context/user.store.ts:88-90 | only the selection changes |
| UserStore.UserStore.SetLoading | features/users/context/user.store.ts:92-94 | only the loading flag changes |
| UserStore.UserStore.SetError | features/users/context/user.store.ts:96-98 | only the error changes |
| UserStore.UserStore.SetPagination | features/users/context/user.store.ts:100-107 | only the four pagination fields change |
| UserStore.UserStore.SetFilters | features/users/context/user.store.ts:109-111 | the filters change and the page goes back to 1 |
| UserStore.UserStore.SetSearchQuery | features/users/context/user.store.ts:113-115 | the query changes and the page goes back to 1 |
| UserStore.UserStore.AddUser | features/users/context/user.store.ts:117-122 | the user goes first, ahead of the old list, and the total grows by one |
| UserStore.UserStore.UpdateUser | features/users/context/user.store.ts:124-130 | every user with the id is replaced and a matching selection too |
| UserStore.UserStore.RemoveUser | features/users/context/user.store.ts:132-139 | every user with the id is dropped, a matching selection cleared, the total lowered by one |
| UserStore.UserStore.Reset | features/users/context/user.store.ts:141-143 | the initial state |
| DocumentoStore.InvalidEmails | features/pdf/context/documento.store.ts:122-125 | the recipients without the e-mail shape, in order; empty exactly when all have it (`InvalidEmailsEmpty`) |
| DocumentoStore.InvalidEmailsEmpty | features/pdf/context/documento.store.ts:122-125 | no recipient is listed as invalid exactly when every recipient has the e-mail shape |
| DocumentoStore.ValidarDocumento | features/pdf/context/documento.store.ts:97-134 | the first failing rule's message; characterised by `ValidarDocumentoAccepts`, `ValidarDocumentoOrder` and `InvalidEmailsListed` |
| DocumentoStore.TieneContenido | features/pdf/context/documento.store.ts:109-111 | an uploaded document needs its main PDF, an edited one non-blank content |
| DocumentoStore.ValidarDocumentoAccepts | features/pdf/context/documento.store.ts:97-134 | a request passes exactly when its subject is not blank, it has recipients, it has content and every recipient has the e-mail shape |
| DocumentoStore.ValidarDocumentoOrder | features/pdf/context/documento.store.ts:98-119 | the rules are checked in order: subject, then recipients, then content, each with its message |
| DocumentoStore.InvalidEmailsListed | features/pdf/context/documento.store.ts:122-131 | once the first three rules pass, a malformed recipient makes validation fail, the message listing the malformed ones joined by commas |
| DocumentoStore.DocumentoStore.constructor | features/pdf/context/documento.store.ts:22-47 | the initial state, nothing published |
| DocumentoStore.DocumentoStore.GetState | features/pdf/context/documento.store.ts:67-69 | the state |
| DocumentoStore.DocumentoStore.SetState | features/pdf/context/documento.store.ts:74-77 | the new state replaces the old one and is published |
| DocumentoStore.DocumentoStore.SetError | features/pdf/context/documento.store.ts:82-85 | the error with its type and message, status ERROR, one state published |
| DocumentoStore.DocumentoStore.ClearError | features/pdf/context/documento.store.ts:90-92 | only the error is cleared, one state published |
| DocumentoStore.DocumentoStore.Validar | features/pdf/context/documento.store.ts:97-134 | true exactly when validation passes, the state then untouched; otherwise the validation error is set |
| DocumentoStore.DocumentoStore.StoreCreated | features/pdf/context/documento.store.ts:178-201 | after LOADING, a reply is put first in the list and selected with status SUCCESS; a failure sets the network error |
| DocumentoStore.DocumentoStore.CrearDocumento | features/pdf/context/documento.store.ts:173-202 | succeeds exactly when validation passes and the service replies; a validation failure publishes only the error, otherwise LOADING comes first |
| DocumentoStore.DocumentoStore.StoreDraft | features/pdf/context/documento.store.ts:212-238 | after LOADING, a reply replaces the first document with its id, or goes first, then SUCCESS; a failure sets the network error |
| DocumentoStore.DocumentoStore.GuardarBorrador | features/pdf/context/documento.store.ts:207-239 | succeeds exactly when validation passes and the service replies, with the states each path publishes |
| DocumentoStore.DocumentoStore.EnviarDocumento | features/pdf/context/documento.store.ts:244-270 | a reply replaces the first document with its id, if any, with status SUCCESS; a failure sets the network error; LOADING is published first and the final state last |
| DocumentoStore.DocumentoStore.EliminarDocumento | features/pdf/context/documento.store.ts:275-299 | on success every document with the id is dropped and the selection cleared; a failure sets the network error |
| DocumentoStore.DocumentoStore.LimpiarSeleccion | features/pdf/context/documento.store.ts:326-328 | only the selection is cleared |
| DocumentoStore.DocumentoStore.Reset | features/pdf/context/documento.store.ts:340-342 | the initial state, published |
| DocumentoStore.GuardarBorradorList | features/pdf/context/documento.store.ts:220-227 | the saved draft is in the list, every other document is untouched, and distinct ids stay distinct |
| DocumentoStore.EliminarDocumentoList | features/pdf/context/documento.store.ts:282 | no remaining document has the id, and a document remains exactly when it was listed under another id |
| PdfStore.ValidatePdfFile | features/pdf/context/pdf.store.ts:89-104 | accepted exactly when the type is `application/pdf` and the size is at most 10 MiB; the type is checked first, each rule with its message |
| PdfStore.CreateFailure | features/pdf/context/pdf.store.ts:164-172 | no failure exactly when the file is accepted and at least one recipient is given; a file failure comes first |
| PdfStore.PdfStore.constructor | features/pdf/context/pdf.store.ts:14-39 | the initial state, nothing published |
| PdfStore.PdfStore.GetState | features/pdf/context/pdf.store.ts:59-61 | a copy of the state |
| PdfStore.PdfStore.SetState | features/pdf/context/pdf.store.ts:66-69 | the new state replaces the old one and is published |
| PdfStore.PdfStore.SetError | features/pdf/context/pdf.store.ts:74-77 | status ERROR with the typed error, one state published |
| PdfStore.PdfStore.ClearError | features/pdf/context/pdf.store.ts:82-84 | only the error is cleared |
| PdfStore.PdfStore.StoreCreated | features/pdf/context/pdf.store.ts:174-206 | after LOADING with the error cleared, a reply goes first in the list with status SUCCESS; a failure sets the server error |
| PdfStore.PdfStore.CreatePdf | features/pdf/context/pdf.store.ts:154-207 | the request is sent exactly when the file and recipients pass, carrying the file's Base64, name and size; a validation failure publishes only its error; success exactly when sent and answered |
| PdfStore.PdfStore.UpdatePdf | features/pdf/context/pdf.store.ts:212-237 | every PDF with the reply's id is replaced, status SUCCESS; a failure sets the server error; LOADING is published first |
| PdfStore.PdfStore.DeletePdf | features/pdf/context/pdf.store.ts:242-265 | every PDF with the id is dropped, status SUCCESS; a failure sets the server error; LOADING is published first |
| PdfStore.PdfStore.Reset | features/pdf/context/pdf.store.ts:298-301 | the initial state, published |
| PdfStore.UpdatePdfList | features/pdf/context/pdf.store.ts:219-221 | the update keeps the list's length and ids and leaves every other PDF untouched |
| PdfStore.DeletePdfList | features/pdf/context/pdf.store.ts:249 | no remaining PDF has the id, and a PDF remains exactly when it was listed under another id |
| PdfStore.FileBase64 | features/pdf/context/pdf.store.ts:109-121 | the Base64 part of the file's data URL; `FileBase64RoundTrip` shows it decodes to the file |
| PdfStore.FileBase64RoundTrip | features/pdf/context/pdf.store.ts:109-121 | the Base64 sent for a file decodes to the file's bytes |
| TokenManager.StoredSession | core/lib/tokenManager.ts:53-60 | the session entry under `auth_session`, read only with a browser window |
| TokenManager.Expired | core/lib/tokenManager.ts:63 | a stored session whose expiry the clock has passed; `GetSession` clears both keys then |
| TokenManager.LiveSession | core/lib/tokenManager.ts:53-73 | a session is returned only with a browser window, a stored session entry and an expiry not yet passed |
| TokenManager.Cleared | core/lib/tokenManager.ts:117-122 | both keys are gone and every other entry of the storage is kept |
| TokenManager.RoleOf | core/lib/tokenManager.ts:85-88 | the session's role exactly when there is a session and its role is not empty; none otherwise |
| TokenManager.SessionLifetime | core/lib/tokenManager.ts:35-66 | a session saved at time `t` for `expiresIn` seconds is read back until `t + expiresIn · 1000` and not after |
| TokenManager.FreshSessionNotExpiring | core/lib/tokenManager.ts:127-133 | a session saved for at least five minutes is not about to expire at the moment it is saved |
| TokenManager.ExpiringSoon | core/lib/tokenManager.ts:127-133 | a live session with less than five minutes left; `FreshSessionNotExpiring` and `ExpiringSoonIsLive` characterise it |
| TokenManager.ExpiringSoonIsLive | core/lib/tokenManager.ts:127-133 | a session about to expire is live and has less than five minutes left |
| TokenManager.NoSessionAfterClear | core/lib/tokenManager.ts:117-133 | after clearing there is no session and nothing is about to expire |
| TokenManager.NoWindowNoSession | core/lib/tokenManager.ts:53-54 | without a browser window there is no session, no role and nothing about to expire |
| TokenManager.TokenManager.constructor | core/lib/tokenManager.ts:22 | the given storage and window |
| TokenManager.TokenManager.SetSession | core/lib/tokenManager.ts:35-48 | with a window, the session entry is written with expiry `now + expiresIn · 1000`; otherwise nothing changes |
| TokenManager.TokenManager.GetSession | core/lib/tokenManager.ts:53-73 | the live session; an expired one is cleared from the storage |
| TokenManager.TokenManager.IsAuthenticated | core/lib/tokenManager.ts:78-80 | true exactly when there is a live session |
| TokenManager.TokenManager.GetUserRole | core/lib/tokenManager.ts:85-88 | the live session's role, None when that is empty |
| TokenManager.TokenManager.SetUserData | core/lib/tokenManager.ts:93-97 | with a window, the user entry is written; otherwise nothing changes |
| TokenManager.TokenManager.GetUserData | core/lib/tokenManager.ts:102-112 | the stored user text exactly when there is a window and a user entry |
| TokenManager.TokenManager.ClearSession | core/lib/tokenManager.ts:117-122 | with a window, both keys are removed; otherwise nothing changes |
| TokenManager.TokenManager.IsSessionExpiringSoon | core/lib/tokenManager.ts:127-133 | true exactly when a live session has less than five minutes left |
| Middleware.MiddlewareAsWritten | middleware.ts:14-65 | the gate as written, with the prefix test against a list that holds "/"; `AsWrittenPassesEverything` shows what that does |
| Middleware.AsWrittenPassesEverything | middleware.ts:12-20 | as written, every path starting with "/" passes without headers, whether or not there is a session |
| Middleware.AsWrittenOpensProtectedPage | middleware.ts:10-51 | as written, an anonymous request for the protected `/pdf` passes untouched |
| Middleware.Decide | middleware.ts:14-65 | the gate with the home page matched exactly; characterised by `RedirectIff`, `HeadersIff` and `ProtectedPageRedirects` |
| Middleware.IsPublic | middleware.ts:12-20 | the public test as intended: the home page exactly, or a path under `/api` |
| Middleware.IsProtected | middleware.ts:10 | a path under `/pdf`, `/addpdf` or `/profile`, by prefix |
| Middleware.Handle | middleware.ts:14-65 | the gate, setting the four headers one by one, gives the intended decision |
| Middleware.RedirectIff | middleware.ts:43-51 | a request is redirected exactly when it is protected, neither public nor the login page, and has no session; the redirect goes to `/login` with the path as `callbackUrl` |
| Middleware.HeadersIff | middleware.ts:53-64 | the security headers are set exactly when the request is neither public nor the login page and either has a session or is not protected |
| Middleware.ProtectedPageRedirects | middleware.ts:43-51 | with the home page matched exactly, anonymous requests for `/pdf` and `/pdfs` (prefix match) are redirected to the login page |
| Middleware.LoginMatchedExactly | middleware.ts:23-25 | `/login` passes without headers, while `/login/x` is not the login page |
| UserSelector.FilteredUsers | features/pdf/presentation/components/userSelector.tsx:43-51 | only available users, each matching the query by name or e-mail (case-insensitively) and not already selected |
| UserSelector.FilteredMembers | features/pdf/presentation/components/userSelector.tsx:43-51 | a user is offered exactly when it is available, matches the query and is not selected |
| UserSelector.FilteredAppend | features/pdf/presentation/components/userSelector.tsx:43-51 | filtering works piecewise, so the offered users keep the order of the available ones |
| UserSelector.EmptyQueryListsUnselected | features/pdf/presentation/components/userSelector.tsx:43-51 | with an empty query every available user not yet selected is offered |
| UserSelector.SelectKeepsDistinct | features/pdf/presentation/components/userSelector.tsx:48-54 | selecting an offered user keeps the selected ids distinct |
| UserSelector.UserSelector.constructor | features/pdf/presentation/components/userSelector.tsx:26-27 | closed, with an empty query |
| UserSelector.UserSelector.SetSearchQuery | features/pdf/presentation/components/userSelector.tsx:118 | only the query changes |
| UserSelector.UserSelector.Toggle | features/pdf/presentation/components/userSelector.tsx:100 | the list opens or closes, the query is kept |
| UserSelector.UserSelector.MouseDown | features/pdf/presentation/components/userSelector.tsx:31-40 | a press outside the component closes the list, one inside leaves it as it was |
| UserSelector.UserSelector.SelectUser | features/pdf/presentation/components/userSelector.tsx:53-57 | the user is appended to the selection, the query is cleared and the list closed |
| UserSelector.UserSelector.RemoveUser | features/pdf/presentation/components/userSelector.tsx:59-61 | every selected user with the id is dropped, the rest keep their order |
| PdfForm.FileFailure | features/pdf/presentation/components/pdfForm.tsx:52-62 | a file is accepted exactly when its type is `application/pdf` and it is at most 10 MiB; the type is checked first |
| PdfForm.DefaultTitle | features/pdf/presentation/components/pdfForm.tsx:69 | the file name with its first ".pdf" removed; `DefaultTitleDropsExtension` shows it drops the extension |
| PdfForm.DefaultTitleDropsExtension | features/pdf/presentation/components/pdfForm.tsx:69 | a name whose only ".pdf" is its ending suggests the name without it |
| PdfForm.GoodTags | features/pdf/presentation/components/pdfForm.tsx:73-82 | tags are trimmed, non-blank and distinct; `AddTagKeepsGood` and `RemoveTagKeepsGood` show both tag actions keep it |
| PdfForm.AddTagKeepsGood | features/pdf/presentation/components/pdfForm.tsx:73-78 | adding a new, non-blank trimmed tag keeps the tags trimmed, non-blank and distinct |
| PdfForm.RemoveTagKeepsGood | features/pdf/presentation/components/pdfForm.tsx:80-82 | removing a tag keeps that property and the tag is gone |
| PdfForm.PdfForm.constructor | features/pdf/presentation/components/pdfForm.tsx:28-40 | an empty form, not submitting |
| PdfForm.PdfForm.HandleFileChange | features/pdf/presentation/components/pdfForm.tsx:47-71 | no file changes nothing; a refused file only sets its message; an accepted file is taken, the error cleared, and an empty title gets the file's name without ".pdf" |
| PdfForm.PdfForm.SetTagInput | features/pdf/presentation/components/pdfForm.tsx:274 | only the tag input changes |
| PdfForm.PdfForm.HandleAddTag | features/pdf/presentation/components/pdfForm.tsx:73-78 | a non-blank trimmed input not yet a tag is appended and the input cleared; otherwise nothing changes; the tags stay good |
| PdfForm.PdfForm.HandleRemoveTag | features/pdf/presentation/components/pdfForm.tsx:80-82 | the tag is dropped and the tags stay good |
| PdfForm.PdfForm.IsValidForm | features/pdf/presentation/components/pdfForm.tsx:45 | a file, a title that is not blank, and a recipient; `HandleSubmit` sends exactly when it holds |
| PdfForm.PdfForm.HandleSubmit | features/pdf/presentation/components/pdfForm.tsx:84-129 | an incomplete form sends nothing and changes nothing (submitting flag, error, success, progress and every field stay); otherwise the data with trimmed title and description is sent, submitting ends, an answer sets progress 100 and success or the send error, a thrown error shows its message or the default |
| PdfForm.PdfForm.ResetForm | features/pdf/presentation/components/pdfForm.tsx:131-145 | every field and message back to empty, submitting untouched |
| PageNav.Clamp | features/pdf/presentation/components/pdfViewer.tsx:33 | with pages, the result is a page of the document, the requested page when it is one, 1 below and the last page above; with no pages (yet) it is 0 |
| PageNav.ClampIdempotent | features/pdf/presentation/components/PdfViewerModal.tsx:84-89 | clamping a clamped page changes nothing |
| PageNav.PageInput | features/pdf/presentation/components/PdfViewerModal.tsx:186 | `parseInt(text) \|\| 1`: the parsed number unless it is NaN or 0, which give 1 |
| PageNav.PageInputDecimal | features/pdf/presentation/components/PdfViewerModal.tsx:186 | a typed page number, after any white space, is the page requested, and "0" asks for page 1 |
| PageNav.Rotated | features/pdf/presentation/components/pdfViewer.tsx:39 | a quarter turn further, below 360, a right angle again |
| PageNav.FourRotations | features/pdf/presentation/components/PdfViewerModal.tsx:94 | four quarter turns restore any right angle |
| PdfViewer.PdfViewer.PreviousDisabled | features/pdf/presentation/components/pdfViewer.tsx:57 | the previous button is disabled on or before page 1; `DisabledExactlyWhenStuck` shows going back would not move then |
| PdfViewer.PdfViewer.NextDisabled | features/pdf/presentation/components/pdfViewer.tsx:72 | the next button is disabled on or after the last page |
| PdfViewerModal.PdfViewerModal.PreviousDisabled | features/pdf/presentation/components/PdfViewerModal.tsx:173 | the previous button is disabled on or before page 1 |
| PdfViewerModal.PdfViewerModal.NextDisabled | features/pdf/presentation/components/PdfViewerModal.tsx:196 | the next button is disabled on or after the last page |
| PageNav.DisabledExactlyWhenStuck | features/pdf/presentation/components/pdfViewer.tsx:56-72 | the previous button is disabled exactly when going back would not move, and the next button exactly when going forward would not move |
| PdfViewer.PdfViewer.constructor | features/pdf/presentation/components/pdfViewer.tsx:20-23 | no pages, page 1, no rotation |
| PdfViewer.PdfViewer.OnDocumentLoadSuccess | features/pdf/presentation/components/pdfViewer.tsx:25-28 | the page count is taken and page 1 shown |
| PdfViewer.PdfViewer.ChangePage | features/pdf/presentation/components/pdfViewer.tsx:30-35 | the page moves by the offset, clamped; the page still fits |
| PdfViewer.PdfViewer.Rotate | features/pdf/presentation/components/pdfViewer.tsx:39 | one quarter turn further, still a right angle |
| PdfViewerModal.PdfViewerModal.constructor | features/pdf/presentation/components/PdfViewerModal.tsx:41-45 | no pages, page 1, no rotation, windowed |
| PdfViewerModal.PdfViewerModal.Open | features/pdf/presentation/components/PdfViewerModal.tsx:48-53 | opening shows page 1, unrotated and windowed |
| PdfViewerModal.PdfViewerModal.OnDocumentLoadSuccess | features/pdf/presentation/components/PdfViewerModal.tsx:76-79 | the page count is taken and page 1 shown |
| PdfViewerModal.PdfViewerModal.ChangePage | features/pdf/presentation/components/PdfViewerModal.tsx:81-86 | the page moves by the offset, clamped |
| PdfViewerModal.PdfViewerModal.GoToPage | features/pdf/presentation/components/PdfViewerModal.tsx:88-90 | the requested page, clamped |
| PdfViewerModal.PdfViewerModal.PageBoxChanged | features/pdf/presentation/components/PdfViewerModal.tsx:186 | the typed text read as a page, then clamped |
| PdfViewerModal.PdfViewerModal.Rotate | features/pdf/presentation/components/PdfViewerModal.tsx:94 | one quarter turn further |
| PdfViewerModal.PdfViewerModal.ToggleFullscreen | features/pdf/presentation/components/PdfViewerModal.tsx:95 | full screen flips, nothing else changes |
| DocumentList.Tabs | features/pdf/presentation/components/documentList.tsx:105-111 | five tabs: four status tabs that are lists, then the "enviar" action with count 0 |
| DocumentList.TabCounts | features/pdf/presentation/components/documentList.tsx:106-109 | each status tab's badge is the number of documents with that status |
| DocumentList.FilteredDocuments | features/pdf/presentation/components/documentList.tsx:113 | the documents of the active tab; `FilteredMembers`, `FilteredOrder` and `TabCounts` characterise it |
| DocumentList.FilteredMembers | features/pdf/presentation/components/documentList.tsx:113 | a document is listed exactly when it has the active tab's status |
| DocumentList.FilteredOrder | features/pdf/presentation/components/documentList.tsx:113 | filtering works piecewise, so the listed documents keep the list's order |
| DocumentList.ShowEdit | features/pdf/presentation/components/documentList.tsx:320 | the edit button on the drafting and not-sent tabs for a normal document; related to the others by `ActionsConsistent` |
| DocumentList.ShowReply | features/pdf/presentation/components/documentList.tsx:338 | the reply button on the inbox tab for a document that allows replies |
| DocumentList.ShowDelete | features/pdf/presentation/components/documentList.tsx:348 | the delete button on the drafting and not-sent tabs |
| DocumentList.ActionsConsistent | features/pdf/presentation/components/documentList.tsx:320-348 | edit comes only with delete and only for unencrypted documents; reply never comes with edit or delete |
| DocumentList.ShownRecipients | features/pdf/presentation/components/documentList.tsx:289 | all recipients when there are at most two, otherwise exactly the first two |
| DocumentList.HiddenCount | features/pdf/presentation/components/documentList.tsx:296 | shown and hidden recipients add up to all of them; some are hidden exactly when there are more than two |
| DocumentList.NoteTextReadsBack | features/pdf/presentation/components/documentList.tsx:296 | the note is "+", the count in decimal, then " más", and its digits read back as the count |
| DocumentList.MoreNote | features/pdf/presentation/components/documentList.tsx:295-297 | the note appears exactly when recipients are hidden, naming how many |
| DocumentList.PartyColumnOf | features/pdf/presentation/components/documentList.tsx:283-300 | the sender exactly on the inbox tab, otherwise a prefix of the recipients |
| DocumentList.ShownReference | features/pdf/presentation/components/documentList.tsx:256 | the reference followed by "..." when it has at most ten characters, otherwise its first ten characters followed by "..." |
| DocumentList.DocumentList.constructor | features/pdf/presentation/components/documentList.tsx:89 | the first tab is active |
| DocumentList.DocumentList.HandleTabClick | features/pdf/presentation/components/documentList.tsx:115-121 | "enviar" navigates to the editor and keeps the tab; any other tab becomes active; the active tab is never "enviar" |
| UserForm.SanitizeCedula | features/users/presentation/components/userForm.tsx:256 | only digits taken from the text, at most ten |
| UserForm.SanitizeKeepsDigits | features/users/presentation/components/userForm.tsx:256 | text of at most ten digits passes unchanged |
| UserForm.SanitizeIdempotent | features/users/presentation/components/userForm.tsx:256 | filtering twice is filtering once |
| UserForm.EmailCheck | features/users/presentation/components/userForm.tsx:116-121 | the kept verdict is valid exactly when the address has the e-mail shape and an institutional domain |
| UserForm.FirstFailedGate | features/users/presentation/components/userForm.tsx:157-193 | the alert of the first failing submit check, or None; characterised by `GatesPass` and `GateOrder` |
| UserForm.GatesPass | features/users/presentation/components/userForm.tsx:157-193 | submit goes through exactly when the three verdicts are valid, the password is confirmed, and for `admin` and `secretaria` the admin password is given, valid and confirmed |
| UserForm.GateOrder | features/users/presentation/components/userForm.tsx:157-193 | a bad cédula is reported first; with the three verdicts valid a mismatch is reported next; other roles ignore the admin fields |
| UserForm.Payload | features/users/presentation/components/userForm.tsx:196-199 | the admin password is sent exactly for the roles that need it; every other field is the form's |
| UserForm.UserForm.constructor | features/users/presentation/components/userForm.tsx:76-105 | the default data, empty passwords, unchecked verdicts, nothing touched |
| UserForm.UserForm.CedulaChanged | features/users/presentation/components/userForm.tsx:107-113 | the filtered text is kept and, unless empty, validated; nothing else changes |
| UserForm.UserForm.EmailChanged | features/users/presentation/components/userForm.tsx:115-121 | the text, lower-cased as the input does at line 332, is kept and, unless empty, validated |
| UserForm.UserForm.PasswordChanged | features/users/presentation/components/userForm.tsx:123-129 | the text is kept and, unless empty, validated |
| UserForm.UserForm.CheckAdminPassword | features/users/presentation/components/userForm.tsx:131-137 | a non-empty admin password is validated when the role needs it; otherwise the verdicts stay |
| UserForm.UserForm.AdminPasswordChanged | features/users/presentation/components/userForm.tsx:131-137 | the admin password is kept and validated when non-empty and the role needs it |
| UserForm.UserForm.RoleChanged | features/users/presentation/components/userForm.tsx:131-137 | the role is kept and the admin password re-validated when non-empty and the new role needs it |
| UserForm.UserForm.ConfirmPasswordChanged | features/users/presentation/components/userForm.tsx:465 | only the confirmation changes |
| UserForm.UserForm.ConfirmAdminPasswordChanged | features/users/presentation/components/userForm.tsx:540 | only the admin confirmation changes |
| UserForm.UserForm.Blur | features/users/presentation/components/userForm.tsx:139-141 | the field is added to the touched ones |
| UserForm.UserForm.HandleSubmit | features/users/presentation/components/userForm.tsx:147-226 | every field is touched; the first failing gate's alert is shown and nothing sent; otherwise the payload is sent, a creation resets the form and forgets the touched fields, a rejection shows the prefixed error |
| AuthStore.AuthStore.constructor | features/auth/context/auth.store.ts:15-33 | the initial state, nothing published |
| AuthStore.AuthStore.GetState | features/auth/context/auth.store.ts:53-55 | a copy of the state |
| AuthStore.AuthStore.SetState | features/auth/context/auth.store.ts:60-63 | the new state replaces the old one and is published |
| AuthStore.AuthStore.Login | features/auth/context/auth.store.ts:68-100 | loading is shown first; a reply saves the session and the user data and holds the user; a failure keeps the user and shows the error's message or the default; authenticated exactly when a user is held |
| AuthStore.AuthStore.Logout | features/auth/context/auth.store.ts:105-133 | loading, then the initial state, the session cleared when there is a window |
| AuthStore.AuthStore.CheckAuth | features/auth/context/auth.store.ts:138-168 | without a live session only loading stops; with one the current user is held, and a failed call clears the session and the user |
| AuthStore.AuthStore.RefreshTokenIfNeeded | features/auth/context/auth.store.ts:173-193 | nothing happens unless the session is about to expire; then a reply renews the session still live and a failure logs out |
| AuthStore.AuthStore.ClearError | features/auth/context/auth.store.ts:198-200 | only the error is cleared |
| UploadPdf.TotalChunks | examples/UploadPdfExample.tsx:85 | `Math.ceil(size / CHUNK_SIZE)`: enough chunks to hold the file and not one more; none exactly for an empty file |
| UploadPdf.ChunkRange | examples/UploadPdfExample.tsx:90-91 | chunk `i` starts at `i · CHUNK_SIZE`; each chunk of the file is non-empty, inside the file and at most one chunk size long |
| UploadPdf.ChunksContiguous | examples/UploadPdfExample.tsx:89-92 | each chunk ends where the next begins, the first starts at 0 and the last ends at the file's end |
| UploadPdf.ChunksDisjoint | examples/UploadPdfExample.tsx:89-92 | distinct chunks share no byte |
| UploadPdf.ChunksCover | examples/UploadPdfExample.tsx:89-92 | every byte lies in chunk `p / CHUNK_SIZE` and in no other |
| UploadPdf.ChunkBytes | examples/UploadPdfExample.tsx:92 | a chunk is between one byte and one chunk size long |
| UploadPdf.ChunksReassemble | examples/UploadPdfExample.tsx:89-92 | the chunks laid end to end are the file |
| UploadPdf.MessageAt | examples/UploadPdfExample.tsx:98-111 | the request for chunk `i` carries its index and the chunk count, and the metadata exactly for chunk 0 |
| UploadPdf.MessagesReassemble | examples/UploadPdfExample.tsx:89-123 | decoding the chunks' Base64 in order gives back the file |
| UploadPdf.Btoa | examples/UploadPdfExample.tsx:263 | `btoa` succeeds exactly when every character code is below 256 |
| UploadPdf.UploadPdfExample.constructor | examples/UploadPdfExample.tsx:11-16 | no file, empty title and description, status idle, no error message |
| UploadPdf.UploadPdfExample.ArrayBufferToBase64 | examples/UploadPdfExample.tsx:258-264 | the loop builds the binary string of the bytes, so the result is their Base64, which decodes back to them |
| UploadPdf.UploadPdfExample.UploadSimple | examples/UploadPdfExample.tsx:22-71 | without a file or a title nothing happens; otherwise the body carries the file's Base64, name, size and the two tags, and the answer sets success or the upload error |
| UploadPdf.UploadPdfExample.UploadCompressed | examples/UploadPdfExample.tsx:167-227 | as the simple upload, marked not compressed and with one tag |
| UploadPdf.UploadPdfExample.SendChunks | examples/UploadPdfExample.tsx:89-132 | the chunk requests in order, up to and including the first refused one, whose number counted from 1 is returned |
| UploadPdf.UploadPdfExample.UploadChunked | examples/UploadPdfExample.tsx:77-160 | without a file or a title nothing happens; otherwise the chunks are sent in order; a refused chunk reports its number, else completion sets success or the completion error |
| JsString.Trim | features/users/data/validators/userValidators.ts:182 | `trim()`: never longer than the text, with no white space left at either end |
| JsString.TrimInfix | features/users/data/validators/userValidators.ts:182 | the trimmed text is the part of the text right after its leading white space |
| JsString.TrimEmpty | features/pdf/context/documento.store.ts:98 | a text trims to nothing exactly when it is all white space |
| JsString.TrimIdempotent | features/pdf/presentation/components/pdfForm.tsx:74 | trimming twice is trimming once |
| JsString.ToLower | features/users/data/validators/userValidators.ts:106 | one character for each character, each lower-cased |
| JsString.IncludesIff | features/pdf/presentation/components/userSelector.tsx:45-46 | `includes` holds exactly when the text occurs at some position |
| JsString.ReplaceFirstSuffix | features/pdf/presentation/components/pdfForm.tsx:69 | replacing the first occurrence of a text that occurs only at the end removes that ending |
| JsString.NatToStringValue | examples/UploadPdfExample.tsx:126 | the decimal text of a number reads back as that number |
| JsString.ParseInt | features/pdf/presentation/components/PdfViewerModal.tsx:186 | `parseInt` on decimal text is NaN exactly when, after leading white space and an optional sign, no digit follows |
| JsString.ParseIntDecimal | features/pdf/presentation/components/PdfViewerModal.tsx:186 | a decimal numeral, bare, after "+" or after "-", followed by nothing or a non-digit, is read as its number, negated after "-" |
| JsString.ParseIntSkipsSpaces | features/pdf/presentation/components/PdfViewerModal.tsx:186 | leading white space never changes what is read |

## Left out

- Subscription and notification of listeners: the ghost `published` trace stands in for what the listeners see. The user store has no trace.
- The singleton `getInstance` accessors: each class is constructed directly.
- Network requests, `fetch`, `axios` and their headers: a reply is a parameter (an option or an outcome datatype). A `fetch` that throws a network error is not distinguished from a refused answer in the upload example.
- Listing and search actions: `fetchDocumentos`, `seleccionarDocumento`, `aplicarFiltros`, `fetchPdfs`, `searchPdfs`, and the service's `getUsers`, `getUserById`, `getDestinatarios`, `deleteUser`, `searchUsers`, `getUsersByRole`, `getUsersByDepartment`, `toggleUserStatus`, `checkCedulaExists` and `checkEmailExists`. These only forward a request and store its reply. The page arithmetic of `getUsers` and `searchUsers` is modelled by `UsersService.WithHasMore`.
- `JSON.stringify` and `JSON.parse`:
  - the cipher's JSON helpers take them as function parameters;
  - the login stores the user's JSON as the text the reply carries;
  - the token manager stores a session entry, a user entry or a malformed entry.
- TokenManager.LiveSession: a value under `auth_session` that parses as JSON but is not a session object is treated as no session. The source would return it as a session when it lacks `expiresAt`.
- Vigenere.VigenereCipher.Decrypt: the `catch` of `decrypt` is not modelled. No step of the decryption throws on a string: Node's Base64 decoder skips foreign characters and its UTF-8 decoder replaces ill-formed bytes.
- Dafny strings hold Unicode scalar values, so a text with a lone surrogate cannot be given to the model. The cipher counts UTF-16 code units, as the source does: the key codes, `charCodeAt` and `String.fromCharCode`. Every other length in the model counts characters. A character outside the Basic Multilingual Plane is one character in the model and two code units in JavaScript, so these members differ from the source on such text:
  - UserValidators.CleanVerdict and UserValidators.CedulaVerdict compare the cleaned length with 10. For "12345678😀" the source reports non-digits, and the model reports the wrong length.
  - UserValidators.FormatCedula tests the same length and cuts with `substring`. For "12345678😀" the source returns "123-45678😀", and the model returns the input.
  - UserValidators.ValidatePassword and ResetPasswordForm.PasswordErrors compare the length with 8. "Ab1!😀😀" has length 8 in JavaScript and 6 in the model.
  - DocumentList.ShownReference cuts the reference after 10 characters rather than 10 code units.
  - UserForm.SanitizeCedula keeps only ASCII digits, so it agrees with the source.
- UserValidators.RoleDescription: the source looks the role up in a plain object, so `constructor`, `toString` and the other names inherited from `Object.prototype` give back an inherited function. The model returns such a role unchanged. Typed callers pass only the known roles.
- TokenManager.TokenManager.GetUserData: the source parses the text under `user_data`, so an empty text gives null and a session-shaped entry gives the parsed object. The model returns the stored text of a user entry, `Some("")` for an empty one, and None for any other entry. Only a storage the store did not write itself holds such entries.
- `toLowerCase` lower-cases ASCII and Latin-1 letters only. Other scripts keep their case in the model.
- Base64.Decode: a character above U+00FF is skipped as foreign. Node's lenient decoder reads only the low byte of each UTF-16 code unit, so such a character can count as a Base64 letter or as `=`. Only a malformed ciphertext given to `decrypt` reaches this.
- ParseInt: only decimal text is modelled. JavaScript's `parseInt` without a radix reads a leading "0x" as hexadecimal. The page box is a number input, so its text never holds "0x".
- Floating point: the viewers' zoom factor, the upload progress percentages, and the PDF form's progress timer (`setInterval` stepping by 10 up to 90).
- Timers: the PDF form's reset two seconds after a success, and the reset-password redirect three seconds after a success. Only their effects (the reset, the success flag) are modelled.
- Console logging, `alert` as a side effect (it is returned as a value), and navigation with `router.push` (returned as a value in `HandleTabClick`). Opening, downloading, editing and replying to a document from the list are left out.
- The viewers' keyboard listeners, the body's scroll lock, and the download link.
- `generateUploadId` (clock and randomness: the id is a parameter) and `generateMD5` with the completion request's body.
- `features/pdf/data/interfaces/pdf.interface.ts` declares `IPdfCreateRequest` with a `file` field. The store builds the request with `fileBase64`, `fileName`, `fileSize`, `recipients` and `cc` instead. The model follows the store.
- The middleware's `matcher` configuration: the model assumes every path reaches the middleware.
- The plain inputs that only copy their value into the form's data: `nombre`, `apellido`, `department`, `position`, `activo` and `esDestinatario` in the new-user form; title, description, recipients and copies in the PDF form; title, description and file in the upload example. Their handlers change one field and nothing else.
- The password visibility toggles of both password forms.
- The document list's tab id is an enumeration, where the source casts a string (`tabId as DocumentStatus`).

## Findings

| source | as written | input that shows it | evidently intended | confidence | as-written member | corrected member |
|---|---|---|---|---|---|---|
| middleware.ts:12-20 | `publicRoutes` holds "/" and is matched with `startsWith`, so every path is public and the gate never redirects or sets headers | an anonymous request for `/pdf` passes untouched | "/" matches the home page only, so protected routes redirect to `/login` with `callbackUrl` and other pages get the security headers | not executed | Middleware.AsWrittenOpensProtectedPage | Middleware.ProtectedPageRedirects |

As written, the model follows `Middleware.MiddlewareAsWritten`, and `Middleware.AsWrittenPassesEverything` shows that every path starting with "/" passes without headers. The gate used elsewhere is `Middleware.Decide`, implemented by `Middleware.Handle`, with "/" matched exactly.
