/**
 * The store of official documents: one `DocumentoState` record that every
 * action replaces through `setState`, which also notifies the listeners.
 * The ghost field `published` records every state handed to them, so the
 * contracts can say which intermediate states (a LOADING status, say) an
 * action shows. A service call is a parameter: its reply, or None when it
 * throws.
 */
module DocumentoStore {
  import opened Wrappers
  import opened JsString
  import opened Seqs
  import opened StoreTypes
  import opened DocumentTypes
  import UserValidators

  /** `IDocumentoFilters`, without the date range. */
  datatype DocumentoFilters = DocumentoFilters(
    tipo: Option<Tipo>,
    categoria: Option<Categoria>,
    estado: Option<Estado>,
    busqueda: Option<string>)

  datatype DocumentoState = DocumentoState(
    documentos: seq<Documento>,
    documentoSeleccionado: Option<Documento>,
    filtros: DocumentoFilters,
    pagination: Pagination,
    status: RequestStatus,
    error: Option<StoreError>)

  /** `getInitialState`. */
  const Initial := DocumentoState([], None, DocumentoFilters(None, None, None, None), InitialPagination, Idle, None)

  const AsuntoMessage := "El asunto es requerido"
  const DestinatariosMessage := "Debe seleccionar al menos un destinatario"
  const ContenidoMessage := "Debe proporcionar contenido (editor de texto o PDF subido)"
  const EmailsPrefix := "Emails inválidos: "

  /** An uploaded document needs its main PDF; an edited one needs text that is not all blank. */
  predicate TieneContenido(data: DocumentoRequest) {
    if data.esDocumentoSubido then data.pdfPrincipal.Some?
    else data.contenido.Some? && Trim(data.contenido.value) != ""
  }

  /** The recipients that do not have the shape of an e-mail address, in their order. */
  function InvalidEmails(destinatarios: seq<string>): seq<string> {
    RemoveWhere(destinatarios, UserValidators.EmailFormat)
  }

  /**
   * `validarDocumento`: the message of the first failing rule (blank subject,
   * no recipients, no content, malformed addresses), or None.
   */
  function ValidarDocumento(data: DocumentoRequest): (failure: Option<string>) {
    if Trim(data.asunto) == "" then Some(AsuntoMessage)
    else if |data.destinatarios| == 0 then Some(DestinatariosMessage)
    else if !TieneContenido(data) then Some(ContenidoMessage)
    else
      var invalid := InvalidEmails(data.destinatarios);
      if |invalid| > 0 then Some(EmailsPrefix + Join(invalid, ", ")) else None
  }

  /** Every recipient has the shape of an e-mail address. */
  predicate AllEmails(destinatarios: seq<string>) {
    forall k :: 0 <= k < |destinatarios| ==> UserValidators.EmailFormat(destinatarios[k])
  }

  lemma InvalidEmailsEmpty(destinatarios: seq<string>)
    ensures |InvalidEmails(destinatarios)| == 0 <==> AllEmails(destinatarios)
  {
    var r := InvalidEmails(destinatarios);
    if |r| > 0 {
      assert r[0] in destinatarios;
    }
  }

  /** A request passes exactly when it has a subject, recipients, content, and well-formed addresses. */
  lemma ValidarDocumentoAccepts(data: DocumentoRequest)
    ensures ValidarDocumento(data).None? <==>
              Trim(data.asunto) != "" && |data.destinatarios| > 0 && TieneContenido(data) && AllEmails(data.destinatarios)
  {
    InvalidEmailsEmpty(data.destinatarios);
  }

  /** The rules fail in order: subject, then recipients, then content. */
  lemma ValidarDocumentoOrder(data: DocumentoRequest)
    ensures Trim(data.asunto) == "" ==> ValidarDocumento(data) == Some(AsuntoMessage)
    ensures Trim(data.asunto) != "" && |data.destinatarios| == 0 ==> ValidarDocumento(data) == Some(DestinatariosMessage)
    ensures Trim(data.asunto) != "" && |data.destinatarios| > 0 && !TieneContenido(data) ==> ValidarDocumento(data) == Some(ContenidoMessage)
  {
  }

  /** A malformed address is named in the message, which lists exactly the malformed ones. */
  lemma InvalidEmailsListed(data: DocumentoRequest, k: nat)
    requires Trim(data.asunto) != "" && |data.destinatarios| > 0 && TieneContenido(data)
    requires k < |data.destinatarios| && !UserValidators.EmailFormat(data.destinatarios[k])
    ensures data.destinatarios[k] in InvalidEmails(data.destinatarios)
    ensures ValidarDocumento(data) == Some(EmailsPrefix + Join(InvalidEmails(data.destinatarios), ", "))
  {
  }

  class DocumentoStore {
    var state: DocumentoState
    ghost var published: seq<DocumentoState>

    constructor()
      ensures state == Initial && published == []
    {
      state := Initial;
      published := [];
    }

    /** `getState`. */
    method GetState() returns (s: DocumentoState)
      ensures s == state
    {
      s := state;
    }

    /** `setState`: the new state replaces the old one and is shown to the listeners. */
    method SetState(next: DocumentoState)
      modifies this
      ensures state == next && published == old(published) + [next]
    {
      state := next;
      published := published + [next];
    }

    /** `setError`: an error always comes with the ERROR status. */
    method SetError(kind: ErrorType, message: string)
      modifies this
      ensures state == old(state).(error := Some(StoreError(kind, message)), status := Errored)
      ensures published == old(published) + [state]
    {
      SetState(state.(error := Some(StoreError(kind, message)), status := Errored));
    }

    method ClearError()
      modifies this
      ensures state == old(state).(error := None) && published == old(published) + [state]
    {
      SetState(state.(error := None));
    }

    /** `validarDocumento` as the store runs it: a failure is recorded as a validation error. */
    method Validar(data: DocumentoRequest) returns (ok: bool)
      modifies this
      ensures ok <==> ValidarDocumento(data).None?
      ensures ok ==> state == old(state) && published == old(published)
      ensures !ok ==> state == old(state).(error := Some(StoreError(Validation, ValidarDocumento(data).value)), status := Errored)
      ensures !ok ==> published == old(published) + [state]
    {
      var failure := ValidarDocumento(data);
      if failure.Some? {
        SetError(Validation, failure.value);
        return false;
      }
      return true;
    }

    /** What `crearDocumento` does once the request has passed validation. */
    method StoreCreated(reply: Option<Documento>) returns (ok: bool)
      modifies this
      ensures ok <==> reply.Some?
      ensures ok ==> state == old(state).(documentos := [reply.value] + old(state.documentos), documentoSeleccionado := reply, status := Succeeded, error := None)
      ensures !ok ==> state == old(state).(status := Errored, error := Some(StoreError(Network, "Error al crear documento")))
      ensures published == old(published) + [old(state).(status := Loading), state]
    {
      SetState(state.(status := Loading));
      if reply.None? {
        SetError(Network, "Error al crear documento");
        return false;
      }
      SetState(state.(documentos := [reply.value] + state.documentos, documentoSeleccionado := reply, status := Succeeded, error := None));
      ok := true;
    }

    /** `crearDocumento`: a rejected request never shows LOADING; a created document goes first and is selected. */
    method CrearDocumento(data: DocumentoRequest, reply: Option<Documento>) returns (ok: bool)
      modifies this
      ensures ok <==> ValidarDocumento(data).None? && reply.Some?
      ensures ValidarDocumento(data).Some? ==>
                && state == old(state).(error := Some(StoreError(Validation, ValidarDocumento(data).value)), status := Errored)
                && published == old(published) + [state]
      ensures ValidarDocumento(data).None? && reply.Some? ==>
                && state == old(state).(documentos := [reply.value] + old(state.documentos), documentoSeleccionado := reply, status := Succeeded, error := None)
                && published == old(published) + [old(state).(status := Loading), state]
      ensures ValidarDocumento(data).None? && reply.None? ==>
                && state == old(state).(status := Errored, error := Some(StoreError(Network, "Error al crear documento")))
                && published == old(published) + [old(state).(status := Loading), state]
    {
      ok := Validar(data);
      if ok {
        ok := StoreCreated(reply);
      }
    }

    /** What `guardarBorrador` does once the request has passed validation. */
    method StoreDraft(reply: Option<Documento>) returns (ok: bool)
      modifies this
      ensures ok <==> reply.Some?
      ensures ok ==> state == old(state).(documentos := UpsertKey(old(state.documentos), DocId, reply.value), status := Succeeded, error := None)
      ensures ok ==> published == old(published) + [old(state).(status := Loading), old(state).(status := Loading, documentos := state.documentos), state]
      ensures !ok ==> state == old(state).(status := Errored, error := Some(StoreError(Network, "Error al guardar borrador")))
      ensures !ok ==> published == old(published) + [old(state).(status := Loading), state]
    {
      SetState(state.(status := Loading));
      if reply.None? {
        SetError(Network, "Error al guardar borrador");
        return false;
      }
      var documento := reply.value;
      var index := FirstKey(state.documentos, DocId, documento.id);
      if index.Some? {
        var nuevos := state.documentos;
        nuevos := nuevos[index.value := documento];
        SetState(state.(documentos := nuevos));
      } else {
        SetState(state.(documentos := [documento] + state.documentos));
      }
      SetState(state.(status := Succeeded, error := None));
      ok := true;
    }

    /** `guardarBorrador`: the saved draft replaces the first document with its id, or goes first. */
    method GuardarBorrador(data: DocumentoRequest, reply: Option<Documento>) returns (ok: bool)
      modifies this
      ensures ok <==> ValidarDocumento(data).None? && reply.Some?
      ensures ValidarDocumento(data).Some? ==>
                && state == old(state).(error := Some(StoreError(Validation, ValidarDocumento(data).value)), status := Errored)
                && published == old(published) + [state]
      ensures ok ==>
                && state == old(state).(documentos := UpsertKey(old(state.documentos), DocId, reply.value), status := Succeeded, error := None)
                && published == old(published) + [old(state).(status := Loading), old(state).(status := Loading, documentos := state.documentos), state]
      ensures ValidarDocumento(data).None? && reply.None? ==>
                && state == old(state).(status := Errored, error := Some(StoreError(Network, "Error al guardar borrador")))
                && published == old(published) + [old(state).(status := Loading), state]
    {
      ok := Validar(data);
      if ok {
        ok := StoreDraft(reply);
      }
    }

    /** `enviarDocumento`: the sent document replaces the first one with its id; an unknown id leaves the list alone. */
    method EnviarDocumento(reply: Option<Documento>) returns (ok: bool)
      modifies this
      ensures ok <==> reply.Some?
      ensures ok ==> state == old(state).(documentos := ReplaceFirstKey(old(state.documentos), DocId, reply.value), status := Succeeded, error := None)
      ensures !ok ==> state == old(state).(status := Errored, error := Some(StoreError(Network, "Error al enviar documento")))
      ensures |published| > |old(published)| && published[..|old(published)| + 1] == old(published) + [old(state).(status := Loading)]
      ensures published[|published| - 1] == state
    {
      SetState(state.(status := Loading));
      if reply.None? {
        SetError(Network, "Error al enviar documento");
        return false;
      }
      var documento := reply.value;
      var index := FirstKey(state.documentos, DocId, documento.id);
      if index.Some? {
        var nuevos := state.documentos;
        nuevos := nuevos[index.value := documento];
        SetState(state.(documentos := nuevos));
      }
      SetState(state.(status := Succeeded, error := None));
      ok := true;
    }

    /** `eliminarDocumento`: every document with the id leaves the list and the selection is cleared. */
    method EliminarDocumento(id: string, deleted: bool) returns (ok: bool)
      modifies this
      ensures ok == deleted
      ensures ok ==> state == old(state).(documentos := DropKey(old(state.documentos), DocId, id), documentoSeleccionado := None, status := Succeeded, error := None)
      ensures !ok ==> state == old(state).(status := Errored, error := Some(StoreError(Network, "Error al eliminar documento")))
      ensures published == old(published) + [old(state).(status := Loading), state]
    {
      SetState(state.(status := Loading));
      if !deleted {
        SetError(Network, "Error al eliminar documento");
        return false;
      }
      SetState(state.(documentos := DropKey(state.documentos, DocId, id), documentoSeleccionado := None, status := Succeeded, error := None));
      ok := true;
    }

    method LimpiarSeleccion()
      modifies this
      ensures state == old(state).(documentoSeleccionado := None) && published == old(published) + [state]
    {
      SetState(state.(documentoSeleccionado := None));
    }

    method Reset()
      modifies this
      ensures state == Initial && published == old(published) + [Initial]
    {
      SetState(Initial);
    }
  }

  /** A saved draft is listed afterwards, the documents with other ids are untouched, and distinct ids stay distinct. */
  lemma GuardarBorradorList(documentos: seq<Documento>, documento: Documento)
    ensures documento in UpsertKey(documentos, DocId, documento)
    ensures DropKey(UpsertKey(documentos, DocId, documento), DocId, documento.id) == DropKey(documentos, DocId, documento.id)
    ensures DistinctKeys(documentos, DocId) ==> DistinctKeys(UpsertKey(documentos, DocId, documento), DocId)
  {
    UpsertKeyOthers(documentos, DocId, documento);
    if DistinctKeys(documentos, DocId) {
      UpsertKeyDistinct(documentos, DocId, documento);
    }
  }

  /** After a deletion no document has the id, and a document is still listed exactly when it has another id. */
  lemma EliminarDocumentoList(documentos: seq<Documento>, id: string, d: Documento)
    ensures forall k :: 0 <= k < |DropKey(documentos, DocId, id)| ==> DropKey(documentos, DocId, id)[k].id != id
    ensures d in DropKey(documentos, DocId, id) <==> d in documentos && d.id != id
  {
    DropKeyMembers(documentos, DocId, id, d);
  }
}
