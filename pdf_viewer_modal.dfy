/**
 * The PDF viewer shown in a modal window: the paging and rotation of the
 * in-page viewer, a page box that jumps to a typed page, a full-screen
 * switch, and a reset each time the modal opens. Zoom, the keyboard
 * listeners and the body's scroll lock are not part of the model.
 */
module PdfViewerModal {
  import opened PageNav

  class PdfViewerModal {
    var numPages: nat
    var pageNumber: int
    var rotation: nat
    var isFullscreen: bool

    /** The shown page fits the document and the rotation is a right angle. */
    predicate Valid()
      reads this
    {
      PageFits(pageNumber, numPages) && RightAngle(rotation)
    }

    constructor()
      ensures Valid()
      ensures numPages == 0 && pageNumber == 1 && rotation == 0 && !isFullscreen
    {
      numPages := 0;
      pageNumber := 1;
      rotation := 0;
      isFullscreen := false;
    }

    /** The effect run when `isOpen` turns true: first page, no rotation, windowed. */
    method Open()
      requires Valid()
      modifies this
      ensures Valid()
      ensures pageNumber == 1 && rotation == 0 && !isFullscreen && numPages == old(numPages)
    {
      pageNumber := 1;
      rotation := 0;
      isFullscreen := false;
    }

    /** `onDocumentLoadSuccess`: the page count is taken and the first page shown. */
    method OnDocumentLoadSuccess(pages: nat)
      requires Valid()
      modifies this
      ensures Valid()
      ensures numPages == pages && pageNumber == 1
      ensures rotation == old(rotation) && isFullscreen == old(isFullscreen)
    {
      numPages := pages;
      pageNumber := 1;
    }

    /** `changePage`: the page moves by `offset`, clamped into the document. */
    method ChangePage(offset: int)
      requires Valid()
      modifies this
      ensures Valid()
      ensures pageNumber == Clamp(old(pageNumber) + offset, numPages)
      ensures numPages == old(numPages) && rotation == old(rotation) && isFullscreen == old(isFullscreen)
    {
      pageNumber := Clamp(pageNumber + offset, numPages);
    }

    /** `goToPage`: the requested page, clamped into the document. */
    method GoToPage(page: int)
      requires Valid()
      modifies this
      ensures Valid()
      ensures pageNumber == Clamp(page, numPages)
      ensures numPages == old(numPages) && rotation == old(rotation) && isFullscreen == old(isFullscreen)
    {
      pageNumber := Clamp(page, numPages);
    }

    /** The page box's `onChange`: the typed text read as a page, then `goToPage`. */
    method PageBoxChanged(text: string)
      requires Valid()
      modifies this
      ensures Valid()
      ensures pageNumber == Clamp(PageInput(text), numPages)
      ensures numPages == old(numPages) && rotation == old(rotation) && isFullscreen == old(isFullscreen)
    {
      GoToPage(PageInput(text));
    }

    /** `rotate`: one quarter turn further. */
    method Rotate()
      requires Valid()
      modifies this
      ensures Valid()
      ensures rotation == Rotated(old(rotation))
      ensures numPages == old(numPages) && pageNumber == old(pageNumber) && isFullscreen == old(isFullscreen)
    {
      rotation := Rotated(rotation);
    }

    /** `toggleFullscreen`: the switch flips, so two toggles restore it. */
    method ToggleFullscreen()
      requires Valid()
      modifies this
      ensures Valid()
      ensures isFullscreen == !old(isFullscreen)
      ensures numPages == old(numPages) && pageNumber == old(pageNumber) && rotation == old(rotation)
    {
      isFullscreen := !isFullscreen;
    }

    /** The previous button's `disabled`. */
    predicate PreviousDisabled()
      reads this
    {
      pageNumber <= 1
    }

    /** The next button's `disabled`. */
    predicate NextDisabled()
      reads this
    {
      pageNumber >= numPages
    }
  }
}
