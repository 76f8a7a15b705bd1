/**
 * What one page shows of the position index (the highlighted element and the
 * clickable ones), and the auto-scroll rule that keeps the played page visible.
 */
module PageView {
  import opened Wrappers
  import opened PositionIndex

  /** The property key the `in` test uses: a missing element id is looked up as "null". */
  function PropertyKey(elid: Option<string>): string
  {
    match elid
    case None => "null"
    case Some(s) => s
  }

  /** `highlighterElement`: the highlighted element, but only when it lies on page `id`. */
  function HighlighterElement(elementsDict: map<string, Element>, highlighterElid: Option<string>, id: int): (r: Option<Element>)
    ensures r.Some? <==> PropertyKey(highlighterElid) in elementsDict && elementsDict[PropertyKey(highlighterElid)].page == id
    ensures r.Some? ==> r.value == elementsDict[PropertyKey(highlighterElid)]
  {
    var key := PropertyKey(highlighterElid);
    if key in elementsDict && elementsDict[key].page == id then Some(elementsDict[key]) else None
  }

  /** `clickableElements`: the elements whose page is page `id`. */
  function ClickableElements(elementsDict: map<string, Element>, id: int): (r: map<string, Element>)
    ensures forall k :: k in r <==> k in elementsDict && elementsDict[k].page == id
    ensures forall k :: k in r ==> r[k] == elementsDict[k]
  {
    map k | k in elementsDict && elementsDict[k].page == id :: elementsDict[k]
  }

  /** A highlighted element is one of the page's clickable elements. */
  lemma HighlightedIsClickable(elementsDict: map<string, Element>, highlighterElid: Option<string>, id: int)
    requires HighlighterElement(elementsDict, highlighterElid, id).Some?
    ensures var key := PropertyKey(highlighterElid);
            key in ClickableElements(elementsDict, id) &&
            ClickableElements(elementsDict, id)[key] == HighlighterElement(elementsDict, highlighterElid, id).value
  {
  }

  /** Each element is clickable on its own page and on no other. */
  lemma ClickableOnOnePage(elementsDict: map<string, Element>, k: string, id: int)
    requires k in elementsDict
    ensures k in ClickableElements(elementsDict, id) <==> id == elementsDict[k].page
  {
  }

  /** A page's box inside the scroll container: `offsetLeft` and `offsetWidth`. */
  datatype PageBox = PageBox(offsetLeft: real, offsetWidth: real)

  /**
   * The containment rule: a page that fits the viewport must be wholly
   * visible; a wider page needs only some part of it visible.
   */
  predicate IsWithinRange(page: PageBox, scrollLeft: real, viewportWidth: real): (b: bool)
    // In container coordinates the visible window is [scrollLeft, scrollLeft + viewportWidth].
    ensures page.offsetWidth <= viewportWidth ==>
              (b <==> scrollLeft <= page.offsetLeft &&
                      page.offsetLeft + page.offsetWidth <= scrollLeft + viewportWidth)
    ensures page.offsetWidth > viewportWidth ==>
              (b <==> page.offsetLeft <= scrollLeft + viewportWidth &&
                      scrollLeft <= page.offsetLeft + page.offsetWidth)
  {
    var currentLeft := page.offsetLeft - scrollLeft;
    var currentRight := page.offsetLeft + page.offsetWidth - scrollLeft;
    if page.offsetWidth <= viewportWidth then currentLeft >= 0.0 && currentRight <= viewportWidth
    else currentLeft <= viewportWidth && currentRight >= 0.0
  }

  /** The scroll target: the larger of "left edge with 20% padding" and "centred". */
  function ScrollTarget(page: PageBox, viewportWidth: real): (r: real)
    ensures r >= page.offsetLeft - page.offsetWidth * 0.2
    ensures r >= page.offsetLeft + page.offsetWidth / 2.0 - viewportWidth / 2.0
    ensures r == page.offsetLeft - page.offsetWidth * 0.2 ||
            r == page.offsetLeft + page.offsetWidth / 2.0 - viewportWidth / 2.0
  {
    var padded := page.offsetLeft - page.offsetWidth * 0.2;
    var centred := page.offsetLeft + page.offsetWidth / 2.0 - viewportWidth / 2.0;
    if padded >= centred then padded else centred
  }

  /** Scrolling to the target puts the page within range under the rule that applies to it. */
  lemma ScrollTargetBringsPageIntoRange(page: PageBox, viewportWidth: real)
    requires page.offsetWidth >= 0.0 && viewportWidth >= 0.0
    ensures IsWithinRange(page, ScrollTarget(page, viewportWidth), viewportWidth)
  {
  }

  /**
   * The auto-scroll effect: the offset to scroll to, or none when auto-scroll
   * is off, nothing is highlighted, the element or its page is unknown, or the
   * page is already within range.  `pages` are the rendered page boxes (none
   * before the pages are mounted).
   */
  function AutoScrollTarget(enabled: bool, highlighterElid: Option<string>, elements: map<string, Element>,
                            pages: seq<PageBox>, scrollLeft: real, viewportWidth: real): (r: Option<real>)
    ensures r.Some? <==>
              && enabled && highlighterElid.Some? && highlighterElid.value in elements
              && 0 <= elements[highlighterElid.value].page < |pages|
              && !IsWithinRange(pages[elements[highlighterElid.value].page], scrollLeft, viewportWidth)
    ensures r.Some? ==> r.value == ScrollTarget(pages[elements[highlighterElid.value].page], viewportWidth)
  {
    if !enabled || highlighterElid.None? || highlighterElid.value !in elements then None
    else
      var p := elements[highlighterElid.value].page;
      if p < 0 || p >= |pages| then None
      else if IsWithinRange(pages[p], scrollLeft, viewportWidth) then None
      else Some(ScrollTarget(pages[p], viewportWidth))
  }

  /** After an auto-scroll the page is within range, so the effect would not scroll again. */
  lemma AutoScrollSettles(enabled: bool, highlighterElid: Option<string>, elements: map<string, Element>,
                          pages: seq<PageBox>, scrollLeft: real, viewportWidth: real)
    requires viewportWidth >= 0.0
    requires forall i :: 0 <= i < |pages| ==> pages[i].offsetWidth >= 0.0
    requires AutoScrollTarget(enabled, highlighterElid, elements, pages, scrollLeft, viewportWidth).Some?
    ensures var target := AutoScrollTarget(enabled, highlighterElid, elements, pages, scrollLeft, viewportWidth).value;
            AutoScrollTarget(enabled, highlighterElid, elements, pages, target, viewportWidth).None?
  {
    var page := pages[elements[highlighterElid.value].page];
    ScrollTargetBringsPageIntoRange(page, viewportWidth);
  }
}
