/** The official documents (`IDocumento`) and the requests that create them (`documento.interface.ts`). */
module DocumentTypes {
  import opened Wrappers

  datatype Tipo = Oficio | Memorando

  datatype Categoria = Normal | Cifrado

  /** The folder a document sits in, which is also the tab that lists it. */
  datatype Estado = Elaboracion | Enviados | Recibidos | NoEnviados

  datatype Destinatario = Destinatario(id: string, nombre: string, email: string)

  /** `IAnexo`: an attached file, of which the model keeps the name, size and type. */
  datatype Anexo = Anexo(nombre: string, tamano: int, tipo: string)

  datatype Documento = Documento(
    id: string,
    tipo: Tipo,
    categoria: Categoria,
    asunto: string,
    referencia: string,
    contenido: string,
    destinatarios: seq<Destinatario>,
    pdfPrincipal: Option<Anexo>,
    estado: Estado,
    esDocumentoSubido: bool,
    puedeResponder: bool)

  function DocId(d: Documento): string { d.id }

  /**
   * `IDocumentoCreateRequest` and `IDocumentoDraftRequest`, which the store
   * validates alike; recipients are e-mail addresses, and an uploaded main
   * PDF is reduced to whether there is one.
   */
  datatype DocumentoRequest = DocumentoRequest(
    tipo: Tipo,
    categoria: Categoria,
    asunto: string,
    referencia: string,
    contenido: Option<string>,
    destinatarios: seq<string>,
    pdfPrincipal: Option<Anexo>,
    esDocumentoSubido: bool)
}
