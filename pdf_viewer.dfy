/**
 * The in-page PDF viewer: a page number stepped by the previous and next
 * buttons, the document's page count, and a rotation. The zoom factor is a
 * floating-point value and is not part of the model.
 */
module PdfViewer {
  import opened PageNav

  class PdfViewer {
    var numPages: nat
    var pageNumber: int
    var rotation: nat

    /** The shown page fits the document and the rotation is a right angle. */
    predicate Valid()
      reads this
    {
      PageFits(pageNumber, numPages) && RightAngle(rotation)
    }

    constructor()
      ensures Valid()
      ensures numPages == 0 && pageNumber == 1 && rotation == 0
    {
      numPages := 0;
      pageNumber := 1;
      rotation := 0;
    }

    /** `onDocumentLoadSuccess`: the page count is taken and the first page shown. */
    method OnDocumentLoadSuccess(pages: nat)
      requires Valid()
      modifies this
      ensures Valid()
      ensures numPages == pages && pageNumber == 1 && rotation == old(rotation)
    {
      numPages := pages;
      pageNumber := 1;
    }

    /** `changePage`: the page moves by `offset`, clamped into the document. */
    method ChangePage(offset: int)
      requires Valid()
      modifies this
      ensures Valid()
      ensures pageNumber == Clamp(old(pageNumber) + offset, numPages)
      ensures numPages == old(numPages) && rotation == old(rotation)
    {
      pageNumber := Clamp(pageNumber + offset, numPages);
    }

    /** `rotate`: one quarter turn further. */
    method Rotate()
      requires Valid()
      modifies this
      ensures Valid()
      ensures rotation == Rotated(old(rotation))
      ensures numPages == old(numPages) && pageNumber == old(pageNumber)
    {
      rotation := Rotated(rotation);
    }

    /** The previous button's `disabled`. */
    predicate PreviousDisabled()
      reads this
    {
      pageNumber <= 1
    }

    /** The next button's `disabled`. */
    predicate NextDisabled()
      reads this
    {
      pageNumber >= numPages
    }
  }
}
