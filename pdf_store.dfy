/**
 * The PDF store: one `PdfState` record replaced by every action, with the
 * ghost field `published` recording each state shown to the listeners. A
 * service call is a parameter: its reply, or None when it throws.
 */
module PdfStore {
  import opened Wrappers
  import opened Seqs
  import opened StoreTypes
  import Base64

  /** `IPdf`, without the upload date and uploader. */
  datatype Pdf = Pdf(
    id: string,
    title: string,
    description: Option<string>,
    fileName: string,
    fileUrl: string,
    fileSize: int,
    mimeType: string,
    tags: Option<seq<string>>,
    isActive: bool)

  function PdfId(p: Pdf): string { p.id }

  /** The body `createPdf` hands to the service. */
  datatype PdfCreateRequest = PdfCreateRequest(
    title: string,
    description: Option<string>,
    fileBase64: string,
    fileName: string,
    fileSize: int,
    recipients: seq<string>,
    cc: Option<seq<string>>,
    tags: Option<seq<string>>)

  /** The filters, kept as field names and values; no modelled action reads them. */
  type PdfFilters = map<string, string>

  datatype PdfState = PdfState(
    pdfs: seq<Pdf>,
    selectedPdf: Option<Pdf>,
    filters: PdfFilters,
    pagination: Pagination,
    status: RequestStatus,
    error: Option<StoreError>)

  /** `getInitialState`. */
  const Initial := PdfState([], None, map[], InitialPagination, Idle, None)

  const MaxSize := 10 * 1024 * 1024
  const PdfMime := "application/pdf"
  const NotPdfMessage := "El archivo debe ser un PDF"
  const TooLargeMessage := "El archivo no debe superar 10MB"
  const NoRecipientsMessage := "Debe especificar al menos un destinatario"

  /** `validatePdfFile`: the type is checked before the size. */
  function ValidatePdfFile(file: FileInfo): (failure: Option<string>)
    ensures failure.None? <==> file.mimeType == PdfMime && file.Size() <= MaxSize
    ensures file.mimeType != PdfMime ==> failure == Some(NotPdfMessage)
    ensures file.mimeType == PdfMime && file.Size() > MaxSize ==> failure == Some(TooLargeMessage)
  {
    if file.mimeType != PdfMime then Some(NotPdfMessage)
    else if file.Size() > MaxSize then Some(TooLargeMessage)
    else None
  }

  /** The checks `createPdf` makes before it shows LOADING: the file, then the recipients. */
  function CreateFailure(file: FileInfo, recipients: Option<seq<string>>): (failure: Option<string>)
    ensures failure.None? <==> ValidatePdfFile(file).None? && recipients.Some? && |recipients.value| > 0
    ensures ValidatePdfFile(file).Some? ==> failure == ValidatePdfFile(file)
  {
    if ValidatePdfFile(file).Some? then ValidatePdfFile(file)
    else if recipients.None? || |recipients.value| == 0 then Some(NoRecipientsMessage)
    else None
  }

  /** `fileToBase64`: the data URL of the file without its `data:...;base64,` prefix. */
  function FileBase64(file: FileInfo): string {
    Base64.Encode(file.content)
  }

  class PdfStore {
    var state: PdfState
    ghost var published: seq<PdfState>

    constructor()
      ensures state == Initial && published == []
    {
      state := Initial;
      published := [];
    }

    /** `getState` returns a copy, so the caller cannot change the store through it. */
    method GetState() returns (s: PdfState)
      ensures s == state
    {
      s := state;
    }

    method SetState(next: PdfState)
      modifies this
      ensures state == next && published == old(published) + [next]
    {
      state := next;
      published := published + [next];
    }

    /** `setError`: an error always comes with the ERROR status. */
    method SetError(kind: ErrorType, message: string)
      modifies this
      ensures state == old(state).(status := Errored, error := Some(StoreError(kind, message)))
      ensures published == old(published) + [state]
    {
      SetState(state.(status := Errored, error := Some(StoreError(kind, message))));
    }

    method ClearError()
      modifies this
      ensures state == old(state).(error := None) && published == old(published) + [state]
    {
      SetState(state.(error := None));
    }

    /** What `createPdf` does once the file and the recipients have passed. */
    method StoreCreated(reply: Option<Pdf>) returns (ok: bool)
      modifies this
      ensures ok <==> reply.Some?
      ensures ok ==> state == old(state).(pdfs := [reply.value] + old(state.pdfs), status := Succeeded, error := None)
      ensures !ok ==> state == old(state).(status := Errored, error := Some(StoreError(Server, "Error al crear el PDF")))
      ensures published == old(published) + [old(state).(status := Loading, error := None), state]
    {
      SetState(state.(status := Loading, error := None));
      if reply.None? {
        SetError(Server, "Error al crear el PDF");
        return false;
      }
      SetState(state.(pdfs := [reply.value] + state.pdfs, status := Succeeded));
      ok := true;
    }

    /**
     * `createPdf`: a bad file or a missing recipient list is reported without
     * LOADING and nothing is sent; otherwise the request carries the file as
     * Base64, and a created PDF goes first.
     */
    method CreatePdf(file: FileInfo, title: string, description: Option<string>, recipients: Option<seq<string>>,
                     cc: Option<seq<string>>, tags: Option<seq<string>>, reply: Option<Pdf>)
      returns (ok: bool, sent: Option<PdfCreateRequest>)
      modifies this
      ensures sent.Some? <==> CreateFailure(file, recipients).None?
      ensures sent.Some? ==> sent.value == PdfCreateRequest(title, description, FileBase64(file), file.name, file.Size(), recipients.value, cc, tags)
      ensures ok <==> sent.Some? && reply.Some?
      ensures CreateFailure(file, recipients).Some? ==>
                && state == old(state).(status := Errored, error := Some(StoreError(Validation, CreateFailure(file, recipients).value)))
                && published == old(published) + [state]
      ensures sent.Some? && reply.Some? ==>
                && state == old(state).(pdfs := [reply.value] + old(state.pdfs), status := Succeeded, error := None)
                && published == old(published) + [old(state).(status := Loading, error := None), state]
      ensures sent.Some? && reply.None? ==>
                && state == old(state).(status := Errored, error := Some(StoreError(Server, "Error al crear el PDF")))
                && published == old(published) + [old(state).(status := Loading, error := None), state]
    {
      var failure := ValidatePdfFile(file);
      if failure.Some? {
        SetError(Validation, failure.value);
        return false, None;
      }
      if recipients.None? || |recipients.value| == 0 {
        SetError(Validation, NoRecipientsMessage);
        return false, None;
      }
      var fileBase64 := FileBase64(file);
      sent := Some(PdfCreateRequest(title, description, fileBase64, file.name, file.Size(), recipients.value, cc, tags));
      ok := StoreCreated(reply);
    }

    /** `updatePdf`: every PDF with the updated one's id is replaced by it. */
    method UpdatePdf(reply: Option<Pdf>) returns (ok: bool)
      modifies this
      ensures ok <==> reply.Some?
      ensures ok ==> state == old(state).(pdfs := ReplaceKey(old(state.pdfs), PdfId, reply.value.id, reply.value), status := Succeeded, error := None)
      ensures !ok ==> state == old(state).(status := Errored, error := Some(StoreError(Server, "Error al actualizar el PDF")))
      ensures published == old(published) + [old(state).(status := Loading, error := None), state]
    {
      SetState(state.(status := Loading, error := None));
      if reply.None? {
        SetError(Server, "Error al actualizar el PDF");
        return false;
      }
      var updated := reply.value;
      SetState(state.(pdfs := ReplaceKey(state.pdfs, PdfId, updated.id, updated), status := Succeeded));
      ok := true;
    }

    /** `deletePdf`: every PDF with the id leaves the list. */
    method DeletePdf(id: string, deleted: bool) returns (ok: bool)
      modifies this
      ensures ok == deleted
      ensures ok ==> state == old(state).(pdfs := DropKey(old(state.pdfs), PdfId, id), status := Succeeded, error := None)
      ensures !ok ==> state == old(state).(status := Errored, error := Some(StoreError(Server, "Error al eliminar el PDF")))
      ensures published == old(published) + [old(state).(status := Loading, error := None), state]
    {
      SetState(state.(status := Loading, error := None));
      if !deleted {
        SetError(Server, "Error al eliminar el PDF");
        return false;
      }
      SetState(state.(pdfs := DropKey(state.pdfs, PdfId, id), status := Succeeded));
      ok := true;
    }

    /** `reset` assigns the initial state directly and then notifies. */
    method Reset()
      modifies this
      ensures state == Initial && published == old(published) + [Initial]
    {
      state := Initial;
      published := published + [state];
    }
  }

  /** An update keeps the list's length and ids in place and leaves the PDFs with other ids alone. */
  lemma UpdatePdfList(pdfs: seq<Pdf>, updated: Pdf)
    ensures |ReplaceKey(pdfs, PdfId, updated.id, updated)| == |pdfs|
    ensures forall j :: 0 <= j < |pdfs| ==> ReplaceKey(pdfs, PdfId, updated.id, updated)[j].id == pdfs[j].id
    ensures DropKey(ReplaceKey(pdfs, PdfId, updated.id, updated), PdfId, updated.id) == DropKey(pdfs, PdfId, updated.id)
  {
    forall j | 0 <= j < |pdfs| {
      ReplaceKeyKeys(pdfs, PdfId, updated, j);
    }
    ReplaceKeyOthers(pdfs, PdfId, updated);
  }

  /** After a deletion no PDF has the id, and a PDF is still listed exactly when it has another id. */
  lemma DeletePdfList(pdfs: seq<Pdf>, id: string, p: Pdf)
    ensures forall k :: 0 <= k < |DropKey(pdfs, PdfId, id)| ==> DropKey(pdfs, PdfId, id)[k].id != id
    ensures p in DropKey(pdfs, PdfId, id) <==> p in pdfs && p.id != id
  {
    DropKeyMembers(pdfs, PdfId, id, p);
  }

  /** The Base64 the request carries decodes back to the file's bytes. */
  lemma FileBase64RoundTrip(file: FileInfo)
    ensures Base64.Decode(FileBase64(file)) == file.content
  {
    Base64.DecodeEncode(file.content);
  }
}
