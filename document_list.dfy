/**
 * The document inbox: tabs by status with their counts, the documents of the
 * active tab, the actions each row offers, and the shortened recipient and
 * reference columns. The "enviar" tab is not a list but a link to the
 * editor.
 */
module DocumentList {
  import opened Wrappers
  import opened JsString
  import opened Seqs
  import DocumentTypes

  /** The statuses the list knows, with the editor link's "enviar". */
  datatype DocumentStatus = Elaboracion | Enviados | Recibidos | NoEnviados | Enviar

  /** A row of the list. */
  datatype ListDocument = ListDocument(
    id: string,
    tipo: DocumentTypes.Tipo,
    categoria: DocumentTypes.Categoria,
    asunto: string,
    referencia: string,
    destinatarios: seq<string>,
    remitente: Option<string>,
    fecha: string,
    estado: DocumentStatus,
    puedeResponder: bool)

  function StatusOf(d: ListDocument): DocumentStatus { d.estado }

  /** The editor's address, where the "enviar" tab leads. */
  const EditorRoute := "/addpdf"

  /** A tab: its id, its badge count, and whether it is an action rather than a list. */
  datatype Tab = Tab(id: DocumentStatus, count: nat, action: bool)

  /** `filteredDocuments`: the documents of the active tab, in list order. */
  function FilteredDocuments(docs: seq<ListDocument>, activeTab: DocumentStatus): seq<ListDocument> {
    KeepKey(docs, StatusOf, activeTab)
  }

  /** `tabs`: the four status tabs counting their documents, then the "enviar" action with count 0. */
  function Tabs(docs: seq<ListDocument>): (r: seq<Tab>)
    ensures |r| == 5 && r[4] == Tab(Enviar, 0, true)
    ensures forall k :: 0 <= k < 4 ==> !r[k].action && r[k].id != Enviar
  {
    [ Tab(Elaboracion, |FilteredDocuments(docs, Elaboracion)|, false),
      Tab(Enviados, |FilteredDocuments(docs, Enviados)|, false),
      Tab(Recibidos, |FilteredDocuments(docs, Recibidos)|, false),
      Tab(NoEnviados, |FilteredDocuments(docs, NoEnviados)|, false),
      Tab(Enviar, 0, true) ]
  }

  /** A status tab's badge is the number of documents with that status. */
  lemma TabCounts(docs: seq<ListDocument>, k: nat)
    requires k < 4
    ensures Tabs(docs)[k].count == multiset(Keys(docs, StatusOf))[Tabs(docs)[k].id]
  {
    KeepKeyCount(docs, StatusOf, Tabs(docs)[k].id);
  }

  /** A document is listed exactly when it is in the list and has the tab's status. */
  lemma FilteredMembers(docs: seq<ListDocument>, activeTab: DocumentStatus, d: ListDocument)
    ensures d in FilteredDocuments(docs, activeTab) <==> d in docs && d.estado == activeTab
  {
    KeepKeyMembers(docs, StatusOf, activeTab, d);
  }

  /** Filtering works piecewise, so the listed documents keep the list's order. */
  lemma FilteredOrder(a: seq<ListDocument>, b: seq<ListDocument>, activeTab: DocumentStatus)
    ensures FilteredDocuments(a + b, activeTab) == FilteredDocuments(a, activeTab) + FilteredDocuments(b, activeTab)
  {
    KeepKeyAppend(a, b, StatusOf, activeTab);
  }

  /** The tab that edits and deletes: documents still being written or not sent. */
  predicate Editable(tab: DocumentStatus) {
    tab == Elaboracion || tab == NoEnviados
  }

  /** The edit button: an editable tab and an unencrypted document. */
  predicate ShowEdit(tab: DocumentStatus, d: ListDocument) {
    Editable(tab) && d.categoria == DocumentTypes.Normal
  }

  /** The reply button: the inbox tab and a document that allows replies. */
  predicate ShowReply(tab: DocumentStatus, d: ListDocument) {
    tab == Recibidos && d.puedeResponder
  }

  /** The delete button: an editable tab. */
  predicate ShowDelete(tab: DocumentStatus) {
    Editable(tab)
  }

  /** Edit comes only with delete, and reply never with either; encrypted documents cannot be edited. */
  lemma ActionsConsistent(tab: DocumentStatus, d: ListDocument)
    ensures ShowEdit(tab, d) ==> ShowDelete(tab)
    ensures ShowReply(tab, d) ==> !ShowDelete(tab) && !ShowEdit(tab, d)
    ensures d.categoria == DocumentTypes.Cifrado ==> !ShowEdit(tab, d)
    ensures ShowDelete(tab) && d.categoria == DocumentTypes.Normal ==> ShowEdit(tab, d)
  {
  }

  /** `destinatarios.slice(0, 2)`: at most the first two recipients. */
  function ShownRecipients(destinatarios: seq<string>): (r: seq<string>)
    ensures |r| <= 2 && r <= destinatarios
    ensures |destinatarios| <= 2 ==> r == destinatarios
    ensures |destinatarios| > 2 ==> r == destinatarios[..2]
  {
    if |destinatarios| <= 2 then destinatarios else destinatarios[..2]
  }

  /** How many recipients the row leaves out: together with the shown ones, all of them. */
  function HiddenCount(destinatarios: seq<string>): (n: nat)
    ensures |ShownRecipients(destinatarios)| + n == |destinatarios|
    ensures n > 0 <==> |destinatarios| > 2
  {
    if |destinatarios| > 2 then |destinatarios| - 2 else 0
  }

  /** The text `+{n} más`. */
  function NoteText(n: nat): string {
    "+" + NatToString(n) + " más"
  }

  /** The note names its count in decimal between the "+" and the " más". */
  lemma NoteTextReadsBack(n: nat)
    ensures var t := NoteText(n);
            |t| > 5 && t[0] == '+' && EndsWith(t, " más") && DigitsValue(t[1..|t| - 4]) == n
  {
    var t := NoteText(n);
    assert t[1..|t| - 4] == NatToString(n);
    assert t[|t| - 4..] == " más";
    NatToStringValue(n);
  }

  /** The "+n más" note, given only when recipients were left out, naming how many. */
  function MoreNote(destinatarios: seq<string>): (r: Option<string>)
    ensures r.Some? <==> |destinatarios| > 2
    ensures r.Some? ==> r.value == NoteText(HiddenCount(destinatarios))
  {
    if |destinatarios| > 2 then Some(NoteText(|destinatarios| - 2)) else None
  }

  /** The sender or recipient column: the sender on the inbox tab, the shortened recipients elsewhere. */
  datatype PartyColumn = Sender(remitente: Option<string>) | Recipients(shown: seq<string>, more: Option<string>)

  function PartyColumnOf(tab: DocumentStatus, d: ListDocument): (c: PartyColumn)
    ensures tab == Recibidos <==> c.Sender?
    ensures c.Recipients? ==> c.shown <= d.destinatarios
  {
    if tab == Recibidos then Sender(d.remitente) else Recipients(ShownRecipients(d.destinatarios), MoreNote(d.destinatarios))
  }

  /** `referencia.substring(0, 10) + "..."`. */
  function ShownReference(referencia: string): (r: string)
    ensures EndsWith(r, "...") && |r| <= 13
    ensures r[..|r| - 3] <= referencia
    ensures |referencia| <= 10 ==> r == referencia + "..."
    ensures |referencia| > 10 ==> r == referencia[..10] + "..."
  {
    var head := if |referencia| <= 10 then referencia else referencia[..10];
    assert (head + "...")[..|head|] == head;
    head + "..."
  }

  class DocumentList {
    const documents: seq<ListDocument>
    var activeTab: DocumentStatus

    /** The list never shows the "enviar" pseudo-tab. */
    predicate Valid()
      reads this
    {
      activeTab != Enviar
    }

    constructor(documents: seq<ListDocument>)
      ensures Valid() && this.documents == documents && activeTab == Elaboracion
    {
      this.documents := documents;
      activeTab := Elaboracion;
    }

    /** `handleTabClick`: "enviar" navigates to the editor and keeps the tab; any other tab becomes active. */
    method HandleTabClick(tabId: DocumentStatus) returns (navigateTo: Option<string>)
      requires Valid()
      modifies this
      ensures Valid()
      ensures tabId == Enviar ==> navigateTo == Some(EditorRoute) && activeTab == old(activeTab)
      ensures tabId != Enviar ==> navigateTo.None? && activeTab == tabId
    {
      if tabId == Enviar {
        navigateTo := Some(EditorRoute);
      } else {
        activeTab := tabId;
        navigateTo := None;
      }
    }
  }
}
