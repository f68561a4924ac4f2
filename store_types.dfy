/**
 * The request status and error records the document and PDF stores share
 * (`pdf.enums.ts`), and the browser `File` as the PDF store and forms see it.
 */
module StoreTypes {
  import opened Bytes

  datatype RequestStatus = Idle | Loading | Succeeded | Errored

  datatype ErrorType = Network | Server | Validation | Unauthorized | NotFound | Unknown

  /** `IDocumentoError` and `IPdfError`; the free-form `details` are not modelled. */
  datatype StoreError = StoreError(kind: ErrorType, message: string)

  datatype Pagination = Pagination(page: int, limit: int, total: int, hasMore: bool)

  const InitialPagination := Pagination(1, 10, 0, false)

  /** A browser `File`: its name, its MIME type and its bytes; `size` is their number. */
  datatype FileInfo = FileInfo(name: string, mimeType: string, content: seq<Byte>) {
    function Size(): nat { |content| }
  }
}
