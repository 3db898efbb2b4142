/** The active-section tracker: from the layout of the page and the scroll
    position it picks the section the navigation bar highlights.

    The DOM is abstracted away. `offsets[i]` is what looking up the element
    with id `ids[i]` yields: `None` when no such element is rendered, and
    `Some(top)` with its top offset otherwise. Layout positions are modelled
    as whole pixels, so rounding the bottom-of-page sum up changes nothing
    here; the page itself may see fractional scroll offsets. */
module Tracker {
  import opened Options

  /** Pixel height of the sticky header that covers the top of the viewport. */
  const HeaderOffset: int := 96

  /** The scroll line a section's top has to reach to count as scrolled to. */
  function Threshold(scrollY: int): int {
    scrollY + HeaderOffset + 1
  }

  /** A section counts when its element exists and its top is at or above the
      threshold. */
  predicate Qualifies(offset: Option<int>, threshold: int) {
    offset.Some? && offset.value <= threshold
  }

  /** The viewport is within one pixel of the end of the document. */
  predicate AtBottom(scrollY: int, innerHeight: int, scrollHeight: int) {
    scrollY + innerHeight >= scrollHeight - 1
  }

  /** The last index, in registry order, whose section qualifies, if any. */
  function LastQualifying(offsets: seq<Option<int>>, threshold: int): (r: Option<nat>)
    ensures r.Some? ==> r.value < |offsets| && Qualifies(offsets[r.value], threshold)
    ensures r.Some? ==> forall j :: r.value < j < |offsets| ==> !Qualifies(offsets[j], threshold)
    ensures r.None? <==> forall j :: 0 <= j < |offsets| ==> !Qualifies(offsets[j], threshold)
  {
    if |offsets| == 0 then None
    else if Qualifies(offsets[|offsets| - 1], threshold) then Some(|offsets| - 1)
    else LastQualifying(offsets[..|offsets| - 1], threshold)
  }

  /** The index the scan leaves the current section at: the last qualifying
      index, or the first section when none qualifies. */
  function ScanIndex(offsets: seq<Option<int>>, threshold: int): (k: nat)
    ensures |offsets| > 0 ==> k < |offsets|
    ensures k == 0 || (k < |offsets| && Qualifies(offsets[k], threshold))
    ensures forall j :: k < j < |offsets| ==> !Qualifies(offsets[j], threshold)
  {
    match LastQualifying(offsets, threshold)
    case None => 0
    case Some(k) => k
  }

  /** The index of the active section: the last section when the viewport is
      at the bottom of the document, the scan's choice otherwise. */
  function CurrentIndex(offsets: seq<Option<int>>, scrollY: int, innerHeight: int, scrollHeight: int): (k: nat)
    requires |offsets| > 0
    ensures k < |offsets|
  {
    if AtBottom(scrollY, innerHeight, scrollHeight) then |offsets| - 1
    else ScanIndex(offsets, Threshold(scrollY))
  }

  /** The id of the active section. */
  function CurrentSection(ids: seq<string>, offsets: seq<Option<int>>, scrollY: int, innerHeight: int, scrollHeight: int): (id: string)
    requires |ids| > 0 && |offsets| == |ids|
    ensures id in ids
  {
    ids[CurrentIndex(offsets, scrollY, innerHeight, scrollHeight)]
  }

  /** The computation as the page does it: a last-one-wins scan over the
      registry starting from the first id, then the bottom-of-page override. */
  method GetCurrent(ids: seq<string>, offsets: seq<Option<int>>, scrollY: int, innerHeight: int, scrollHeight: int)
    returns (current: string)
    requires |ids| > 0 && |offsets| == |ids|
    ensures current == CurrentSection(ids, offsets, scrollY, innerHeight, scrollHeight)
  {
    var threshold := scrollY + HeaderOffset + 1;
    current := ids[0];
    for i := 0 to |ids|
      invariant current == ids[ScanIndex(offsets[..i], threshold)]
    {
      assert offsets[..i + 1][..i] == offsets[..i];
      var el := offsets[i];
      if el.None? {
        continue;
      }
      if el.value <= threshold {
        current := ids[i];
      }
    }
    assert offsets[..|ids|] == offsets;
    var atBottom := scrollY + innerHeight >= scrollHeight - 1;
    if atBottom {
      current := ids[|ids| - 1];
    }
  }

  /** Away from the bottom, the active section is the last one in registry
      order that qualifies; a later section with the same offset beats an
      earlier one. */
  lemma LastQualifyingWins(offsets: seq<Option<int>>, scrollY: int, innerHeight: int, scrollHeight: int, j: nat)
    requires |offsets| > 0
    requires !AtBottom(scrollY, innerHeight, scrollHeight)
    requires j < |offsets| && Qualifies(offsets[j], Threshold(scrollY))
    ensures var k := CurrentIndex(offsets, scrollY, innerHeight, scrollHeight);
      j <= k && Qualifies(offsets[k], Threshold(scrollY)) &&
      forall i :: k < i < |offsets| ==> !Qualifies(offsets[i], Threshold(scrollY))
  {
  }

  /** Away from the bottom, with no section qualifying, the first section is
      active. */
  lemma FallbackToFirst(ids: seq<string>, offsets: seq<Option<int>>, scrollY: int, innerHeight: int, scrollHeight: int)
    requires |ids| > 0 && |offsets| == |ids|
    requires !AtBottom(scrollY, innerHeight, scrollHeight)
    requires forall j :: 0 <= j < |offsets| ==> !Qualifies(offsets[j], Threshold(scrollY))
    ensures CurrentIndex(offsets, scrollY, innerHeight, scrollHeight) == 0
    ensures CurrentSection(ids, offsets, scrollY, innerHeight, scrollHeight) == ids[0]
  {
  }

  /** At the bottom of the document the last section is active, whatever the
      offsets are. */
  lemma BottomOverride(ids: seq<string>, offsets: seq<Option<int>>, scrollY: int, innerHeight: int, scrollHeight: int)
    requires |ids| > 0 && |offsets| == |ids|
    requires AtBottom(scrollY, innerHeight, scrollHeight)
    ensures CurrentIndex(offsets, scrollY, innerHeight, scrollHeight) == |ids| - 1
    ensures CurrentSection(ids, offsets, scrollY, innerHeight, scrollHeight) == ids[|ids| - 1]
  {
  }

  /** A section whose element is missing is never chosen by the scan: it can
      only be active as the fallback first section or as the last section at
      the bottom of the page. */
  lemma MissingSectionSkipped(offsets: seq<Option<int>>, scrollY: int, innerHeight: int, scrollHeight: int, j: nat)
    requires j < |offsets| && offsets[j].None?
    requires CurrentIndex(offsets, scrollY, innerHeight, scrollHeight) == j
    ensures AtBottom(scrollY, innerHeight, scrollHeight) ||
      (j == 0 && forall i :: 0 <= i < |offsets| ==> !Qualifies(offsets[i], Threshold(scrollY)))
  {
  }

  /** Raising the qualifying threshold never moves the scan to an earlier
      index: the set of qualifying sections only grows. This follows from the
      contract of LastQualifying alone. */
  lemma LastQualifyingMonotone(offsets: seq<Option<int>>, t1: int, t2: int)
    requires t1 <= t2
    ensures LastQualifying(offsets, t1).Some? ==>
      LastQualifying(offsets, t2).Some? && LastQualifying(offsets, t1).value <= LastQualifying(offsets, t2).value
  {
  }

  /** With the layout and the viewport height fixed, scrolling further down
      never makes an earlier section active. Like the lemma above, it follows
      from the contract of LastQualifying and the monotone bottom test. */
  lemma ScrollMonotone(offsets: seq<Option<int>>, scroll1: int, scroll2: int, innerHeight: int, scrollHeight: int)
    requires |offsets| > 0
    requires scroll1 <= scroll2
    ensures CurrentIndex(offsets, scroll1, innerHeight, scrollHeight) <= CurrentIndex(offsets, scroll2, innerHeight, scrollHeight)
  {
  }

}
