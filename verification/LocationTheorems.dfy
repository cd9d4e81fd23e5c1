/** Positions and pages are inverse on the paginator's output: every page has a position that leads
    back to it, every position in the document falls on a page, and pages follow document order. */
module LocationTheorems {
  import opened Wrappers
  import opened Publication
  import opened PageLayout
  import opened PageFilling
  import opened Locations

  lemma {:induction false} FindDistinct(blocks: seq<Block>, b: nat)
    requires DistinctIds(blocks) && b < |blocks|
    ensures FindBlock(blocks, blocks[b].id) == Some(blocks[b])
  {
    var n := |blocks| - 1;
    if b < n {
      FindDistinct(blocks[..n], b);
    } else {
      NotFound(blocks[..n], blocks[b].id);
    }
  }

  lemma {:induction false} NotFound(blocks: seq<Block>, id: string)
    requires forall b | 0 <= b < |blocks| :: blocks[b].id != id
    ensures FindBlock(blocks, id) == None
  {
    if blocks == [] {
    } else {
      NotFound(blocks[..|blocks| - 1], id);
    }
  }

  lemma {:induction false} FoundIndex(blocks: seq<Block>, id: string) returns (b: nat)
    requires FindBlock(blocks, id).Some?
    ensures b < |blocks| && blocks[b] == FindBlock(blocks, id).value && blocks[b].id == id
  {
    var n := |blocks| - 1;
    if FindBlock(blocks[..n], id).Some? {
      b := FoundIndex(blocks[..n], id);
    } else {
      b := n;
    }
  }

  // ---------- pieces in order ----------

  /** A later piece is in a later block, or starts no earlier than the earlier one ends. */
  lemma {:induction false} PiecesInOrder(blocks: seq<Block>, images: seq<ImageLink>, box: PageBox,
                                         placed: seq<Placed>, j: nat, k: nat)
    requires Chain(blocks, images, box, placed) && j < k < |placed|
    ensures placed[j].src <= placed[k].src
    ensures placed[j].src == placed[k].src ==>
      placed[j].block.sourceEndOffset <= placed[k].block.sourceStartOffset
      && placed[j].block.sourceEndOffset < VisibleLength(blocks[placed[j].src].content)
    decreases k
  {
    hide IsPieceOf, VisibleLength;
    assert Follows(blocks, placed[k - 1], placed[k]);
    if j >= k - 1 {
    } else {
      PiecesInOrder(blocks, images, box, placed, j, k - 1);
      PieceRange(placed[k - 1], blocks[placed[k - 1].src], images, box);
    }
  }

  /** A piece shows the target of a block: it is one of that block's pieces and spans the target. */
  predicate Spans(blocks: seq<Block>, x: Placed, b: nat, target: int)
    requires b < |blocks|
  {
    x.src == b && Shows(x.block, blocks[b], target)
  }

  /** In document order a piece that shows an earlier target is not after one that shows a later target. */
  lemma SpansMonotone(blocks: seq<Block>, images: seq<ImageLink>, box: PageBox, placed: seq<Placed>,
                      j: nat, b: nat, t: int, k: nat, c: nat, u: int)
    requires Chain(blocks, images, box, placed) && j < |placed| && k < |placed| && b < |blocks| && c < |blocks|
    requires Spans(blocks, placed[j], b, t) && Spans(blocks, placed[k], c, u)
    requires b < c || (b == c && t <= u)
    requires 0 <= t <= VisibleLength(blocks[b].content) && 0 <= u <= VisibleLength(blocks[c].content)
    ensures j <= k
  {
    if k < j {
      PiecesInOrder(blocks, images, box, placed, k, j);
    }
  }

  /** From a piece that starts at or before the target, some piece of the block shows it. */
  lemma {:induction false} SpanFrom(blocks: seq<Block>, images: seq<ImageLink>, box: PageBox, placed: seq<Placed>,
                                    k: nat, target: int) returns (m: nat)
    requires Covers(blocks, images, box, placed) && k < |placed|
    requires placed[k].block.sourceStartOffset <= target <= VisibleLength(blocks[placed[k].src].content)
    ensures k <= m < |placed| && Spans(blocks, placed[m], placed[k].src, target)
    decreases |placed| - k
  {
    hide IsPieceOf, VisibleLength;
    PieceRange(placed[k], blocks[placed[k].src], images, box);
    if Shows(placed[k].block, blocks[placed[k].src], target) {
      m := k;
    } else {
      if k + 1 < |placed| {
        assert Follows(blocks, placed[k], placed[k + 1]);
      }
      m := SpanFrom(blocks, images, box, placed, k + 1, target);
    }
  }

  /** Every block has a piece that starts it. */
  lemma {:induction false} BlockStart(blocks: seq<Block>, images: seq<ImageLink>, box: PageBox, placed: seq<Placed>,
                                      b: nat)
      returns (k: nat)
    requires Covers(blocks, images, box, placed) && b < |blocks|
    ensures k < |placed| && placed[k].src == b && placed[k].block.sourceStartOffset == 0
  {
    hide IsPieceOf, VisibleLength;
    if b == 0 {
      k := 0;
    } else {
      var j := BlockStart(blocks, images, box, placed, b - 1);
      var m := SpanFrom(blocks, images, box, placed, j, VisibleLength(blocks[b - 1].content));
      if m + 1 < |placed| {
        assert Follows(blocks, placed[m], placed[m + 1]);
      }
      k := m + 1;
    }
  }

  /** Every offset of every block is shown by some piece. */
  lemma TargetSpanned(blocks: seq<Block>, images: seq<ImageLink>, box: PageBox, placed: seq<Placed>, b: nat,
                      target: int)
      returns (m: nat)
    requires Covers(blocks, images, box, placed) && b < |blocks| && 0 <= target <= VisibleLength(blocks[b].content)
    ensures m < |placed| && Spans(blocks, placed[m], b, target)
  {
    hide IsPieceOf, Follows;
    var k := BlockStart(blocks, images, box, placed, b);
    m := SpanFrom(blocks, images, box, placed, k, target);
  }

  // ---------- pages in order ----------

  lemma {:induction false} CutBelow(cuts: seq<nat>, n: nat, k: nat, q: nat) returns (p: nat)
    requires Cuts(cuts, n) && q < |cuts| && k < cuts[q]
    ensures p < q && cuts[p] <= k < cuts[p + 1]
  {
    if cuts[q - 1] <= k {
      p := q - 1;
    } else {
      p := CutBelow(cuts, n, k, q - 1);
    }
  }

  /** A position falls on a page exactly when the piece that shows it is on that page. */
  lemma PageOfPiece(blocks: seq<Block>, images: seq<ImageLink>, box: PageBox, pages: seq<ReaderPage>,
                    placed: seq<Placed>, cuts: seq<nat>, b: nat, target: int, m: nat, p: nat)
    requires IsDocumentLayout(blocks, images, box, pages, placed, cuts) && DistinctIds(blocks)
    requires b < |blocks| && 0 <= target <= VisibleLength(blocks[b].content)
    requires m < |placed| && Spans(blocks, placed[m], b, target) && p < |pages|
    ensures PageShows(pages[p], blocks[b], target) <==> cuts[p] <= m < cuts[p + 1]
  {
    hide IsPieceOf, VisibleLength, Shows;
    assert ShowsBlocks(pages[p + 1 - 1], placed, cuts[p + 1 - 1], cuts[p + 1]);
    var shown := pages[p].blocks;
    var on := placed[cuts[p]..cuts[p + 1]];
    assert forall k | 0 <= k < |shown| :: shown[k] == on[k].block && on[k] == placed[cuts[p] + k];
    if cuts[p] <= m < cuts[p + 1] {
      assert shown[m - cuts[p]] == placed[m].block;
    }
    forall k | 0 <= k < |shown| && Shows(shown[k], blocks[b], target) ensures cuts[p] + k == m {
      OneSpan(blocks, images, box, placed, b, target, m, cuts[p] + k);
    }
  }

  /** Only one piece shows a target. */
  lemma OneSpan(blocks: seq<Block>, images: seq<ImageLink>, box: PageBox, placed: seq<Placed>, b: nat, target: int,
                j: nat, k: nat)
    requires Chain(blocks, images, box, placed) && DistinctIds(blocks) && b < |blocks|
    requires 0 <= target <= VisibleLength(blocks[b].content)
    requires j < |placed| && k < |placed|
    requires Spans(blocks, placed[j], b, target) && Shows(placed[k].block, blocks[b], target)
    ensures j == k
  {
    hide IsPieceOf, VisibleLength;
    PieceRange(placed[k], blocks[placed[k].src], images, box);
    assert placed[k].src == b;
    SpansMonotone(blocks, images, box, placed, j, b, target, k, b, target);
    SpansMonotone(blocks, images, box, placed, k, b, target, j, b, target);
  }

  /** Every block and every non-negative offset falls on a page: the one with the piece that shows it. */
  lemma EveryPositionFalls(sections: seq<Section>, images: seq<ImageLink>, box: PageBox, pages: seq<ReaderPage>,
                           placed: seq<Placed>, cuts: seq<nat>, b: nat, offset: nat) returns (p: nat, m: nat)
    requires IsDocumentLayout(Blocks(sections), images, box, pages, placed, cuts) && DistinctIds(Blocks(sections))
    requires b < |Blocks(sections)|
    ensures p < |pages|
    ensures FallsOn(Prose(sections, images), pages, ProseLocation(Blocks(sections)[b].id, offset), Some(p))
    ensures cuts[p] <= m < cuts[p + 1] <= |placed|
    ensures Spans(Blocks(sections), placed[m], b, Target(Blocks(sections)[b], offset))
  {
    hide Chain, IsPieceOf, PageShows, Shows, VisibleLength;
    var blocks := Blocks(sections);
    var target := Target(blocks[b], offset);
    FindDistinct(blocks, b);
    m := TargetSpanned(blocks, images, box, placed, b, target);
    p := CutBelow(cuts, |placed|, m, |cuts| - 1);
    CutsRise(cuts, |placed|, p + 1, |cuts| - 1);
    PageOfPiece(blocks, images, box, pages, placed, cuts, b, target, m, p);
    forall q | 0 <= q < p ensures !PageShows(pages[q], blocks[b], target) {
      PageOfPiece(blocks, images, box, pages, placed, cuts, b, target, m, q);
      CutsRise(cuts, |placed|, q + 1, p);
    }
  }

  /** The page of a position never goes back as the position advances in document order. */
  lemma PagesFollowPositions(sections: seq<Section>, images: seq<ImageLink>, box: PageBox, pages: seq<ReaderPage>,
                             placed: seq<Placed>, cuts: seq<nat>, b: nat, t: nat, c: nat, u: nat, p: nat, q: nat)
    requires IsDocumentLayout(Blocks(sections), images, box, pages, placed, cuts) && DistinctIds(Blocks(sections))
    requires b < |Blocks(sections)| && c < |Blocks(sections)| && (b < c || (b == c && t <= u))
    requires FallsOn(Prose(sections, images), pages, ProseLocation(Blocks(sections)[b].id, t), Some(p))
    requires FallsOn(Prose(sections, images), pages, ProseLocation(Blocks(sections)[c].id, u), Some(q))
    ensures p <= q
  {
    hide Chain, IsPieceOf, Shows, Hits, VisibleLength;
    var blocks := Blocks(sections);
    var p', j := EveryPositionFalls(sections, images, box, pages, placed, cuts, b, t);
    var q', k := EveryPositionFalls(sections, images, box, pages, placed, cuts, c, u);
    SpansMonotone(blocks, images, box, placed, j, b, Target(blocks[b], t), k, c, Target(blocks[c], u));
    assert p == p' && q == q';
    if q < p {
      CutsRise(cuts, |placed|, q + 1, p);
    }
  }

  /** Every page has a position, and that position falls on the same page. */
  lemma LocationRoundTrip(sections: seq<Section>, images: seq<ImageLink>, box: PageBox, pages: seq<ReaderPage>,
                          placed: seq<Placed>, cuts: seq<nat>, p: nat, mode: ComicMode)
    requires IsDocumentLayout(Blocks(sections), images, box, pages, placed, cuts) && DistinctIds(Blocks(sections))
    requires p < |pages|
    ensures var location := PositionOfPage(Prose(sections, images), pages, p, mode);
      location.Some? && FallsOn(Prose(sections, images), pages, location.value, Some(p))
  {
    hide Chain, IsPieceOf, Shows, PageShows, VisibleLength, Hits;
    assert ShowsBlocks(pages[p + 1 - 1], placed, cuts[p + 1 - 1], cuts[p + 1]);
    var blocks, x := Blocks(sections), placed[cuts[p]];
    FirstPieceShows(blocks, images, box, placed, cuts[p]);
    FindDistinct(blocks, x.src);
    assert pages[p].blocks[0] == x.block;
    var q, m := EveryPositionFalls(sections, images, box, pages, placed, cuts, x.src, x.block.sourceStartOffset);
    OneSpan(blocks, images, box, placed, x.src, x.block.sourceStartOffset, m, cuts[p]);
    if q < p {
      CutsRise(cuts, |placed|, q + 1, p);
    } else if p < q {
      CutsRise(cuts, |placed|, p + 1, q);
    }
  }

  /** A piece shows the offset it starts at. */
  lemma FirstPieceShows(blocks: seq<Block>, images: seq<ImageLink>, box: PageBox, placed: seq<Placed>, k: nat)
    requires Chain(blocks, images, box, placed) && k < |placed|
    ensures var x := placed[k];
      && x.src < |blocks| && Spans(blocks, x, x.src, x.block.sourceStartOffset)
      && x.block.sourceBlockId == blocks[x.src].id
      && ValidRenderedBlock(x.block, VisibleLength(blocks[x.src].content))
      && 0 <= x.block.sourceStartOffset == Target(blocks[x.src], x.block.sourceStartOffset)
  {
    hide IsPieceOf, VisibleLength;
    PieceRange(placed[k], blocks[placed[k].src], images, box);
  }

  // ---------- comics, and either format ----------

  lemma {:induction false} FoundComicPage(sources: seq<ComicSource>, id: string) returns (i: nat)
    requires FindComicPage(sources, id).Some?
    ensures i < |sources| && sources[i] == FindComicPage(sources, id).value && sources[i].id == id
  {
    if sources[0].id == id {
      i := 0;
    } else {
      i := FoundComicPage(sources[1..], id);
      i := i + 1;
    }
  }

  lemma {:induction false} FindComicDistinct(sources: seq<ComicSource>, i: nat)
    requires DistinctPageIds(sources) && i < |sources|
    ensures FindComicPage(sources, sources[i].id) == Some(sources[i])
  {
    if i == 0 {
    } else {
      FindComicDistinct(sources[1..], i - 1);
    }
  }

  predicate HasDistinctIds(document: ReaderDocument) {
    match document
    case Prose(sections, _) => DistinctIds(Blocks(sections))
    case Comic(_, sources) => DistinctPageIds(sources)
  }

  /** A comic page's position falls on that page, in either mode; the guided one exists exactly when
      guided view is on and the page has a panel. */
  lemma ComicRoundTrip(guided: bool, sources: seq<ComicSource>, p: nat, mode: ComicMode)
    requires DistinctPageIds(sources) && p < |sources|
    ensures var document, pages := Comic(guided, sources), ComicPages(sources);
      var location := PositionOfPage(document, pages, p, mode);
      && (location.Some? <==> mode.PageMode? || (guided && sources[p].panels != []))
      && (location.Some? ==> FallsOn(document, pages, location.value, Some(p)))
  {
    FindComicDistinct(sources, p);
  }

  /** In either format: the position of a page falls on that page, and every page has one in page mode. */
  lemma PageRoundTrip(document: ReaderDocument, box: PageBox, pages: seq<ReaderPage>, p: nat, mode: ComicMode)
    requires IsPaginated(document, box, pages) && HasDistinctIds(document) && p < |pages|
    ensures var location := PositionOfPage(document, pages, p, mode);
      && (document.Prose? || mode.PageMode? ==> location.Some?)
      && (location.Some? ==> FallsOn(document, pages, location.value, Some(p)))
  {
    match document
    case Prose(sections, images) =>
      var layouts, placed, cuts :| IsProsePagination(sections, images, box, pages, layouts, placed, cuts);
      LocationRoundTrip(sections, images, box, pages, placed, cuts, p, mode);
    case Comic(guided, sources) =>
      ComicRoundTrip(guided, sources, p, mode);
  }

  /** The position of a prose page is where its first piece starts. */
  lemma PageStarts(sections: seq<Section>, images: seq<ImageLink>, box: PageBox, pages: seq<ReaderPage>,
                   placed: seq<Placed>, cuts: seq<nat>, p: nat, mode: ComicMode) returns (x: Placed)
    requires IsDocumentLayout(Blocks(sections), images, box, pages, placed, cuts) && DistinctIds(Blocks(sections))
    requires p < |pages|
    ensures cuts[p] < |placed| && x == placed[cuts[p]] && x.src < |Blocks(sections)|
    ensures PositionOfPage(Prose(sections, images), pages, p, mode)
         == Some(ProseLocation(Blocks(sections)[x.src].id, x.block.sourceStartOffset))
    ensures 0 <= x.block.sourceStartOffset <= VisibleLength(Blocks(sections)[x.src].content)
    ensures Spans(Blocks(sections), x, x.src, x.block.sourceStartOffset)
  {
    hide Chain, IsPieceOf, Shows, VisibleLength;
    assert ShowsBlocks(pages[p + 1 - 1], placed, cuts[p + 1 - 1], cuts[p + 1]);
    x := placed[cuts[p]];
    FirstPieceShows(Blocks(sections), images, box, placed, cuts[p]);
    FindDistinct(Blocks(sections), x.src);
    assert pages[p].blocks[0] == x.block;
  }

  /** The position of a page is the earliest that falls on it: every position on the page is of a later block,
      or of the same block at no smaller an offset. */
  lemma PositionIsEarliest(sections: seq<Section>, images: seq<ImageLink>, box: PageBox, pages: seq<ReaderPage>,
                           placed: seq<Placed>, cuts: seq<nat>, p: nat, mode: ComicMode, c: nat, u: nat)
      returns (b: nat, t: nat)
    requires IsDocumentLayout(Blocks(sections), images, box, pages, placed, cuts) && DistinctIds(Blocks(sections))
    requires p < |pages| && c < |Blocks(sections)|
    requires FallsOn(Prose(sections, images), pages, ProseLocation(Blocks(sections)[c].id, u), Some(p))
    ensures b < |Blocks(sections)|
    ensures PositionOfPage(Prose(sections, images), pages, p, mode) == Some(ProseLocation(Blocks(sections)[b].id, t))
    ensures b < c || (b == c && t <= u)
  {
    hide Chain, IsPieceOf, Shows, Hits, VisibleLength;
    var x := PageStarts(sections, images, box, pages, placed, cuts, p, mode);
    b, t := x.src, x.block.sourceStartOffset;
    var q, k := EveryPositionFalls(sections, images, box, pages, placed, cuts, c, u);
    assert q == p;
    var target := Target(Blocks(sections)[c], u);
    if c < b || (c == b && target < t) {
      SpansMonotone(Blocks(sections), images, box, placed, k, c, target, cuts[p], b, t);
      assert k == cuts[p];
      StartsNoLater(Blocks(sections)[c], placed[k], target);
    }
  }

  lemma StartsNoLater(block: Block, x: Placed, target: int)
    requires Shows(x.block, block, target) && 0 <= target <= VisibleLength(block.content)
    ensures x.block.sourceStartOffset <= target
  {
  }

  /** In guided mode the position of a comic page is its panel that comes first by ordinal. */
  lemma GuidedPositionIsFirst(sources: seq<ComicSource>, p: nat)
    requires DistinctPageIds(sources) && p < |sources| && sources[p].panels != []
    ensures exists ordinal ::
      && PositionOfPage(Comic(true, sources), ComicPages(sources), p, GuidedMode)
           == Some(ComicLocation(sources[p].id, Some(ordinal)))
      && HasPanel(sources[p], ordinal)
      && forall k | 0 <= k < |sources[p].panels| :: ordinal <= sources[p].panels[k].ordinal
  {
    FindComicDistinct(sources, p);
    assert HasPanel(sources[p], LeastOrdinal(sources[p].panels));
  }
}
