/**
 * The page and rotation arithmetic both PDF viewers share: a requested page
 * is clamped into `1..numPages` (which gives 0 while no document has
 * loaded), the page box maps text to a page number, and each click of the
 * rotate button turns the page a quarter turn.
 */
module PageNav {
  import opened Wrappers
  import opened JsString

  /** `Math.min(Math.max(1, page), numPages)`. */
  function Clamp(page: int, numPages: nat): (r: int)
    ensures numPages >= 1 ==> 1 <= r <= numPages
    ensures numPages >= 1 && 1 <= page <= numPages ==> r == page
    ensures numPages >= 1 && page < 1 ==> r == 1
    ensures page > numPages ==> r == numPages
    ensures numPages == 0 ==> r == 0
  {
    var low := if page < 1 then 1 else page;
    if low < numPages then low else numPages
  }

  /** Clamping is idempotent: a page already clamped stays put. */
  lemma ClampIdempotent(page: int, numPages: nat)
    ensures Clamp(Clamp(page, numPages), numPages) == Clamp(page, numPages)
  {
  }

  /** `parseInt(text) || 1`: the text's number, or 1 when it has none (NaN) or it is 0. */
  function PageInput(text: string): (page: int)
    ensures page != 0
    ensures ParseInt(text).None? ==> page == 1
    ensures ParseInt(text).Some? && ParseInt(text).value != 0 ==> page == ParseInt(text).value
  {
    match ParseInt(text)
    case None => 1
    case Some(v) => if v == 0 then 1 else v
  }

  /** A typed page number, with or without leading white space, is the page requested; "0" asks for page 1. */
  lemma PageInputDecimal(ws: string, n: nat)
    requires forall k :: 0 <= k < |ws| ==> IsJsSpace(ws[k])
    ensures PageInput(ws + NatToString(n)) == if n == 0 then 1 else n
  {
    ParseIntSkipsSpaces(ws, NatToString(n));
    ParseIntDecimal(n, "");
    assert NatToString(n) + "" == NatToString(n);
  }

  /** The rotations the viewers show: a whole number of quarter turns. */
  predicate RightAngle(r: int) {
    r == 0 || r == 90 || r == 180 || r == 270
  }

  /** `(prev + 90) % 360`; for the non-negative angles the viewers hold, JavaScript's `%` agrees with Dafny's. */
  function Rotated(r: nat): (next: nat)
    ensures next < 360
    ensures RightAngle(r) ==> RightAngle(next)
  {
    (r + 90) % 360
  }

  /** Four quarter turns bring a right angle back to where it was. */
  lemma FourRotations(r: nat)
    requires RightAngle(r)
    ensures Rotated(Rotated(Rotated(Rotated(r)))) == r
  {
    if r == 0 {
      assert Rotated(0) == 90 && Rotated(90) == 180 && Rotated(180) == 270 && Rotated(270) == 0;
    } else if r == 90 {
      assert Rotated(90) == 180 && Rotated(180) == 270 && Rotated(270) == 0 && Rotated(0) == 90;
    } else if r == 180 {
      assert Rotated(180) == 270 && Rotated(270) == 0 && Rotated(0) == 90 && Rotated(90) == 180;
    } else {
      assert Rotated(270) == 0 && Rotated(0) == 90 && Rotated(90) == 180 && Rotated(180) == 270;
    }
  }

  /** The page a viewer may show: within the document once it has pages, 0 or 1 before. */
  predicate PageFits(page: int, numPages: nat) {
    if numPages >= 1 then 1 <= page <= numPages else page == 0 || page == 1
  }

  /**
   * On a page that fits, "previous" is disabled (`page <= 1`) exactly when a
   * step back would not move, and "next" (`page >= numPages`) exactly when a
   * step forward would not.
   */
  lemma DisabledExactlyWhenStuck(page: int, numPages: nat)
    requires numPages >= 1 && PageFits(page, numPages)
    ensures page <= 1 <==> Clamp(page - 1, numPages) == page
    ensures page >= numPages <==> Clamp(page + 1, numPages) == page
  {
  }
}
