/**
 * Page navigation of the document pane (linguabridge/src/components/ViewerPane.js): the current
 * `pageNumber`, the `numPages` reported by the PDF loader, and the clamps of the Prev and Next
 * buttons. Zoom is not part of this model.
 */
module Pager {
  import opened Wrappers
  import opened Text

  /** The upper clamp of Next: `numPages ?? 1`. */
  function Bound(numPages: Option<nat>): nat {
    numPages.GetOr(1)
  }

  /** The Prev updater `p => Math.max(1, p - 1)`. */
  function PrevPage(p: int): (q: int)
    ensures q >= 1
    ensures p > 1 ==> q == p - 1
    ensures p <= 1 ==> q == 1
  {
    if p - 1 > 1 then p - 1 else 1
  }

  /** The Next updater `p => Math.min(numPages ?? 1, p + 1)`. */
  function NextPage(p: int, numPages: Option<nat>): (q: int)
    ensures q <= Bound(numPages)
    ensures p < Bound(numPages) ==> q == p + 1
    ensures p >= Bound(numPages) ==> q == Bound(numPages)
  {
    if Bound(numPages) < p + 1 then Bound(numPages) else p + 1
  }

  /** The page is a real page of the document: 1 <= page <= `numPages ?? 1`. */
  predicate InRange(p: int, numPages: Option<nat>) {
    1 <= p <= Bound(numPages)
  }

  /** Prev and Next keep the page in range. */
  lemma StepsStayInRange(p: int, numPages: Option<nat>)
    requires InRange(p, numPages)
    ensures InRange(PrevPage(p), numPages) && InRange(NextPage(p, numPages), numPages)
  {
  }

  /** Next undoes Prev away from the first page, and Prev undoes Next away from the last. */
  lemma StepsAreInverse(p: int, numPages: Option<nat>)
    requires InRange(p, numPages)
    ensures p > 1 ==> NextPage(PrevPage(p), numPages) == p
    ensures p < Bound(numPages) ==> PrevPage(NextPage(p, numPages)) == p
  {
  }

  /** Next from any page when the loader reported 0 pages leaves page 0, outside every document. */
  lemma ZeroPagesBreakNext(p: int)
    requires p >= 0
    ensures NextPage(p, Some(0)) == 0
  {
  }

  /** The counter between the buttons: "p of n" when `numPages` is truthy, "—" for a PDF asset
      still loading, "" otherwise. */
  function Label(p: int, numPages: Option<nat>, assetType: Option<string>): (text: string)
    ensures numPages.Some? && numPages.value > 0 ==> text == IntText(p) + " of " + Decimal(numPages.value)
    ensures !(numPages.Some? && numPages.value > 0) && assetType == Some("pdf") ==> text == "—"
    ensures !(numPages.Some? && numPages.value > 0) && assetType != Some("pdf") ==> text == ""
  {
    if numPages.Some? && numPages.value > 0 then IntText(p) + " of " + Decimal(numPages.value)
    else if assetType == Some("pdf") then "—"
    else ""
  }

  class Pane {
    var pageNumber: int
    var numPages: Option<nat>

    ghost predicate Valid()
      reads this
    {
      InRange(pageNumber, numPages)
    }

    /** The `useState` initial values. */
    constructor ()
      ensures Valid() && pageNumber == 1 && numPages == None
    {
      pageNumber := 1;
      numPages := None;
    }

    /** The effect on a change of `asset?.url`: back to page 1 of an unknown count. */
    method AssetChanged()
      modifies this
      ensures Valid() && pageNumber == 1 && numPages == None
    {
      pageNumber := 1;
      numPages := None;
    }

    /** `onLoadSuccess`: record the page count; the page stays where it is. */
    method LoadSuccess(count: nat)
      modifies this`numPages
      ensures numPages == Some(count)
      ensures old(Valid()) && old(pageNumber) <= count ==> Valid()
    {
      numPages := Some(count);
    }

    method Prev()
      modifies this`pageNumber
      ensures pageNumber == PrevPage(old(pageNumber))
      ensures old(Valid()) ==> Valid()
    {
      pageNumber := if pageNumber - 1 > 1 then pageNumber - 1 else 1;
    }

    method Next()
      modifies this`pageNumber
      ensures pageNumber == NextPage(old(pageNumber), numPages)
      ensures old(Valid()) ==> Valid()
    {
      var bound := numPages.GetOr(1);
      pageNumber := if bound < pageNumber + 1 then bound else pageNumber + 1;
    }
  }
}
