/**
 * The PDF upload form: a file limited to PDFs of at most 10 MiB, a title
 * that defaults to the file name, recipients, copies, and a tag list that
 * never holds a blank or a repeated tag. The component's React state is the
 * fields of the class.
 */
module PdfForm {
  import opened Wrappers
  import opened JsString
  import opened Seqs
  import opened StoreTypes
  import opened UserSelector

  const MaxSize := 10 * 1024 * 1024
  const NotPdfMessage := "Solo se permiten archivos PDF"
  const TooLargeMessage := "El archivo no debe superar 10MB"
  const SendFailedMessage := "Error al enviar el documento"
  const UnknownErrorMessage := "Error desconocido"

  /** `PdfFormData`: what the form hands to `onSubmit`. */
  datatype PdfFormData = PdfFormData(
    file: FileInfo,
    title: string,
    description: string,
    recipients: seq<Recipient>,
    cc: seq<Recipient>,
    tags: seq<string>)

  /** How `onSubmit` ends: with its boolean answer, or by throwing an error with a message. */
  datatype SubmitOutcome = Answered(ok: bool) | Threw(message: string)

  /** The rule the file input applies: the type first, then the size. */
  function FileFailure(file: FileInfo): (failure: Option<string>)
    ensures failure.None? <==> file.mimeType == "application/pdf" && file.Size() <= MaxSize
    ensures file.mimeType != "application/pdf" ==> failure == Some(NotPdfMessage)
  {
    if file.mimeType != "application/pdf" then Some(NotPdfMessage)
    else if file.Size() > MaxSize then Some(TooLargeMessage)
    else None
  }

  /** The title a file suggests: its name with the first ".pdf" taken out. */
  function DefaultTitle(name: string): string {
    ReplaceFirst(name, ".pdf", "")
  }

  /** A name that ends in its only ".pdf" suggests the name without it. */
  lemma DefaultTitleDropsExtension(base: string)
    requires forall j :: 0 <= j < |base| ==> !OccursAt(base + ".pdf", ".pdf", j)
    ensures DefaultTitle(base + ".pdf") == base
  {
    ReplaceFirstSuffix(base, ".pdf");
  }

  function TagKey(t: string): string { t }

  /** The tags are trimmed, not blank, and all different. */
  predicate GoodTags(tags: seq<string>) {
    && (forall k :: 0 <= k < |tags| ==> tags[k] != "" && Trim(tags[k]) == tags[k])
    && DistinctKeys(tags, TagKey)
  }

  /** Adding a trimmed tag that is not blank and not yet there keeps the tags good. */
  lemma AddTagKeepsGood(tags: seq<string>, input: string)
    requires GoodTags(tags)
    requires Trim(input) != "" && Trim(input) !in tags
    ensures GoodTags(tags + [Trim(input)])
  {
    var t := Trim(input);
    var r := tags + [t];
    TrimIdempotent(input);
    forall a, b | 0 <= a < b < |r|
      ensures r[a] != r[b]
    {
      assert r[a] == tags[a];
      if b < |tags| {
        assert r[b] == tags[b];
      }
    }
    forall k | 0 <= k < |r|
      ensures r[k] != "" && Trim(r[k]) == r[k]
    {
      if k < |tags| {
        assert r[k] == tags[k];
      }
    }
  }

  /** Removing a tag keeps the tags good and leaves that tag out. */
  lemma RemoveTagKeepsGood(tags: seq<string>, tag: string)
    requires GoodTags(tags)
    ensures GoodTags(DropKey(tags, TagKey, tag))
    ensures tag !in DropKey(tags, TagKey, tag)
  {
    DropKeyDistinct(tags, TagKey, tag);
    var r := DropKey(tags, TagKey, tag);
    forall k | 0 <= k < |r|
      ensures r[k] != "" && Trim(r[k]) == r[k]
    {
      DropKeyMembers(tags, TagKey, tag, r[k]);
    }
    DropKeyMembers(tags, TagKey, tag, tag);
  }

  class PdfForm {
    var file: Option<FileInfo>
    var title: string
    var description: string
    var recipients: seq<Recipient>
    var cc: seq<Recipient>
    var tags: seq<string>
    var tagInput: string
    var isSubmitting: bool
    var progress: int
    var error: Option<string>
    var success: bool

    /** The tag list is always good. */
    predicate Valid()
      reads this
    {
      GoodTags(tags)
    }

    /** `isValidForm`: a file, a title that is not blank, and at least one recipient. */
    predicate IsValidForm()
      reads this
    {
      file.Some? && Trim(title) != "" && |recipients| > 0
    }

    /** The form's defaults, which `resetForm` restores. */
    predicate Empty()
      reads this
    {
      && file.None? && title == "" && description == "" && recipients == [] && cc == []
      && tags == [] && tagInput == "" && progress == 0 && error.None? && !success
    }

    constructor()
      ensures Valid() && Empty() && !isSubmitting
    {
      file := None;
      title := "";
      description := "";
      recipients := [];
      cc := [];
      tags := [];
      tagInput := "";
      isSubmitting := false;
      progress := 0;
      error := None;
      success := false;
    }

    /** `handleFileChange`: a rejected file only sets the error; an accepted one clears it and may fill an empty title. */
    method HandleFileChange(selected: Option<FileInfo>)
      modifies this
      ensures selected.None? ==> file == old(file) && title == old(title) && error == old(error)
      ensures selected.Some? && FileFailure(selected.value).Some? ==>
                file == old(file) && title == old(title) && error == FileFailure(selected.value)
      ensures selected.Some? && FileFailure(selected.value).None? ==>
                && file == selected && error.None?
                && title == (if old(title) == "" then DefaultTitle(selected.value.name) else old(title))
      ensures description == old(description) && recipients == old(recipients) && cc == old(cc) && tags == old(tags)
      ensures tagInput == old(tagInput) && isSubmitting == old(isSubmitting) && progress == old(progress) && success == old(success)
    {
      if selected.None? {
        return;
      }
      var selectedFile := selected.value;
      if selectedFile.mimeType != "application/pdf" {
        error := Some(NotPdfMessage);
        return;
      }
      if selectedFile.Size() > MaxSize {
        error := Some(TooLargeMessage);
        return;
      }
      file := selected;
      error := None;
      if title == "" {
        title := DefaultTitle(selectedFile.name);
      }
    }

    method SetTagInput(input: string)
      modifies this
      ensures tagInput == input
      ensures tags == old(tags) && file == old(file) && title == old(title) && error == old(error)
    {
      tagInput := input;
    }

    /** `handleAddTag`: a new, non-blank trimmed tag joins the end and the input is cleared; otherwise nothing changes. */
    method HandleAddTag()
      requires Valid()
      modifies this
      ensures Valid()
      ensures Trim(old(tagInput)) != "" && Trim(old(tagInput)) !in old(tags) ==> tags == old(tags) + [Trim(old(tagInput))] && tagInput == ""
      ensures !(Trim(old(tagInput)) != "" && Trim(old(tagInput)) !in old(tags)) ==> tags == old(tags) && tagInput == old(tagInput)
      ensures file == old(file) && title == old(title) && error == old(error) && recipients == old(recipients)
    {
      var t := Trim(tagInput);
      if t != "" && t !in tags {
        AddTagKeepsGood(tags, tagInput);
        tags := tags + [t];
        tagInput := "";
      }
    }

    /** `handleRemoveTag`: exactly the equal tag goes. */
    method HandleRemoveTag(tag: string)
      requires Valid()
      modifies this
      ensures Valid()
      ensures tags == DropKey(old(tags), TagKey, tag) && tag !in tags
      ensures tagInput == old(tagInput) && file == old(file) && title == old(title) && error == old(error)
    {
      RemoveTagKeepsGood(tags, tag);
      tags := DropKey(tags, TagKey, tag);
    }

    /**
     * `handleSubmit`: an invalid form sends nothing and changes nothing;
     * otherwise the trimmed data goes out and the answer sets `success` or
     * the error. The later reset is `ResetForm`.
     */
    method HandleSubmit(outcome: SubmitOutcome) returns (sent: Option<PdfFormData>)
      modifies this
      ensures !old(IsValidForm()) ==> sent.None? && error == old(error) && success == old(success) && progress == old(progress)
      ensures !old(IsValidForm()) ==> isSubmitting == old(isSubmitting)
      ensures old(IsValidForm()) ==> sent == Some(PdfFormData(old(file).value, Trim(old(title)), Trim(old(description)), old(recipients), old(cc), old(tags)))
      ensures old(IsValidForm()) ==> !isSubmitting
      ensures old(IsValidForm()) && outcome.Answered? ==> progress == 100 && success == outcome.ok
      ensures old(IsValidForm()) && outcome.Answered? ==> error == if outcome.ok then None else Some(SendFailedMessage)
      ensures old(IsValidForm()) && outcome.Threw? ==> !success && error == Some(if outcome.message != "" then outcome.message else UnknownErrorMessage)
      ensures file == old(file) && title == old(title) && tags == old(tags) && recipients == old(recipients) && cc == old(cc)
      ensures description == old(description) && tagInput == old(tagInput)
    {
      if !IsValidForm() {
        return None;
      }
      isSubmitting := true;
      progress := 0;
      error := None;
      success := false;
      var formData := PdfFormData(file.value, Trim(title), Trim(description), recipients, cc, tags);
      sent := Some(formData);
      match outcome {
        case Answered(result) =>
          progress := 100;
          if result {
            success := true;
          } else {
            error := Some(SendFailedMessage);
          }
        case Threw(message) =>
          error := Some(if message != "" then message else UnknownErrorMessage);
      }
      isSubmitting := false;
    }

    /** `resetForm`. */
    method ResetForm()
      modifies this
      ensures Valid() && Empty() && isSubmitting == old(isSubmitting)
    {
      file := None;
      title := "";
      description := "";
      recipients := [];
      cc := [];
      tags := [];
      tagInput := "";
      progress := 0;
      error := None;
      success := false;
    }
  }
}
