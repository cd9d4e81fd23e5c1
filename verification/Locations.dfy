/** Semantic reading positions: the page a position falls on, and the position of a page. */
module Locations {
  import opened Wrappers
  import opened Publication

  datatype ReaderLocation =
    | ProseLocation(blockId: string, offset: int)
    | ComicLocation(pageId: string, panelOrdinal: Option<int>)

  datatype ComicMode = PageMode | GuidedMode

  // ---------- prose: searching ----------

  /** The first block with an id, in document order. */
  function FindBlock(blocks: seq<Block>, id: string): Option<Block> {
    if blocks == [] then None
    else
      var found := FindBlock(blocks[..|blocks| - 1], id);
      if found.Some? then found
      else if blocks[|blocks| - 1].id == id then Some(blocks[|blocks| - 1]) else None
  }

  lemma {:induction false} FindConcat(a: seq<Block>, b: seq<Block>, id: string)
    ensures FindBlock(a + b, id) == if FindBlock(a, id).Some? then FindBlock(a, id) else FindBlock(b, id)
  {
    if b == [] {
      assert a + b == a;
    } else {
      var n := |b| - 1;
      assert (a + b)[..|a| + n] == a + b[..n];
      FindConcat(a, b[..n], id);
    }
  }

  /** One block further: what the first `b + 1` blocks have. */
  lemma FindNext(blocks: seq<Block>, b: nat, id: string)
    requires b < |blocks| && FindBlock(blocks[..b], id) == None
    ensures FindBlock(blocks[..b + 1], id) == if blocks[b].id == id then Some(blocks[b]) else None
  {
    assert blocks[..b + 1][..b] == blocks[..b];
  }

  /** What is found among the first blocks is what is found. */
  lemma FindEarly(blocks: seq<Block>, b: nat, id: string)
    requires b <= |blocks| && FindBlock(blocks[..b], id).Some?
    ensures FindBlock(blocks, id) == FindBlock(blocks[..b], id)
  {
    hide FindBlock;
    FindConcat(blocks[..b], blocks[b..], id);
    assert blocks == blocks[..b] + blocks[b..];
  }

  method FindInSection(blocks: seq<Block>, id: string) returns (r: Option<Block>)
    ensures r == FindBlock(blocks, id)
  {
    assert blocks[..0] == [] && FindBlock([], id) == None && blocks[..|blocks|] == blocks;
    hide FindBlock;
    for b := 0 to |blocks|
      invariant FindBlock(blocks[..b], id) == None
    {
      FindNext(blocks, b, id);
      if blocks[b].id == id {
        FindEarly(blocks, b + 1, id);
        return Some(blocks[b]);
      }
    }
    return None;
  }

  method DocumentBlock(sections: seq<Section>, id: string) returns (r: Option<Block>)
    ensures r == FindBlock(Blocks(sections), id)
  {
    for s := 0 to |sections|
      invariant FindBlock(Blocks(sections[..s]), id) == None
    {
      r := FindInSection(sections[s].blocks, id);
      assert sections[..s + 1][..s] == sections[..s];
      FindConcat(Blocks(sections[..s]), sections[s].blocks, id);
      if r.Some? {
        FirstBlocksDecide(sections, s + 1, id);
        return;
      }
    }
    assert sections[..|sections|] == sections;
    return None;
  }

  /** What is found in the first sections is what is found in the document. */
  lemma {:induction false} FirstBlocksDecide(sections: seq<Section>, s: nat, id: string)
    requires s <= |sections| && FindBlock(Blocks(sections[..s]), id).Some?
    ensures FindBlock(Blocks(sections), id) == FindBlock(Blocks(sections[..s]), id)
  {
    var n := |sections| - 1;
    if s <= n {
      assert sections[..n][..s] == sections[..s];
      FirstBlocksDecide(sections[..n], s, id);
      FindConcat(Blocks(sections[..n]), sections[n].blocks, id);
    } else {
      assert sections[..s] == sections;
    }
  }

  predicate ValidRenderedBlock(r: RenderedBlock, maximumOffset: int) {
    0 <= r.sourceStartOffset <= r.sourceEndOffset <= maximumOffset
  }

  /** Whether a rendered piece shows a target offset of a block; the last offset belongs to the last piece. */
  predicate Shows(r: RenderedBlock, block: Block, target: int) {
    var maximumOffset := VisibleLength(block.content);
    && r.sourceBlockId == block.id && ValidRenderedBlock(r, maximumOffset)
    && if maximumOffset == 0 then r.sourceStartOffset == 0 && r.sourceEndOffset == 0
       else if target == maximumOffset then r.sourceStartOffset <= target <= r.sourceEndOffset
       else r.sourceStartOffset <= target < r.sourceEndOffset
  }

  /** Whatever the piece: it shows a target of the block exactly when it lies within the block and reaches from
      at or before the target to beyond it, or to the end of the block when the target is that end. */
  lemma ShowsExactly(r: RenderedBlock, block: Block, target: nat)
    requires target <= VisibleLength(block.content)
    ensures Shows(r, block, target) <==>
      && r.sourceBlockId == block.id
      && 0 <= r.sourceStartOffset <= r.sourceEndOffset <= VisibleLength(block.content)
      && r.sourceStartOffset <= target
      && (target < r.sourceEndOffset || target == r.sourceEndOffset == VisibleLength(block.content))
  {
  }

  predicate PageShows(page: ReaderPage, block: Block, target: int) {
    page.TextPage? && exists k | 0 <= k < |page.blocks| :: Shows(page.blocks[k], block, target)
  }

  function Target(block: Block, offset: int): int {
    if offset < VisibleLength(block.content) then offset else VisibleLength(block.content)
  }

  // ---------- comics: searching ----------

  function FindComicPage(pages: seq<ComicSource>, id: string): Option<ComicSource> {
    if pages == [] then None else if pages[0].id == id then Some(pages[0]) else FindComicPage(pages[1..], id)
  }

  /** It is the first page with the id. */
  lemma {:induction false} FirstComicPage(pages: seq<ComicSource>, id: string)
    ensures match FindComicPage(pages, id)
      case Some(page) => exists i :: IsFirstPage(pages, id, i) && page == pages[i]
      case None => forall i | 0 <= i < |pages| :: pages[i].id != id
  {
    if pages == [] {
    } else if pages[0].id == id {
      assert IsFirstPage(pages, id, 0);
    } else {
      FirstComicPage(pages[1..], id);
      assert forall j | 0 < j < |pages| :: pages[j] == pages[1..][j - 1];
      if FindComicPage(pages[1..], id).Some? {
        var i :| IsFirstPage(pages[1..], id, i) && FindComicPage(pages[1..], id).value == pages[1..][i];
        assert IsFirstPage(pages, id, i + 1);
      }
    }
  }

  predicate IsFirstPage(pages: seq<ComicSource>, id: string, i: int) {
    0 <= i < |pages| && pages[i].id == id && forall j | 0 <= j < i :: pages[j].id != id
  }

  predicate HasPanel(page: ComicSource, ordinal: int) {
    exists k | 0 <= k < |page.panels| :: page.panels[k].ordinal == ordinal
  }

  // ---------- position to page ----------

  /** Whether page `i` is one the position can fall on. */
  predicate Hits(document: ReaderDocument, pages: seq<ReaderPage>, location: ReaderLocation, i: nat) {
    && i < |pages|
    && match document
       case Prose(sections, _) =>
         && location.ProseLocation? && location.offset >= 0
         && var block := FindBlock(Blocks(sections), location.blockId);
            block.Some? && PageShows(pages[i], block.value, Target(block.value, location.offset))
       case Comic(guided, sources) =>
         && location.ComicLocation?
         && var source := FindComicPage(sources, location.pageId);
            && source.Some?
            && (location.panelOrdinal.Some? ==> guided && HasPanel(source.value, location.panelOrdinal.value))
            && pages[i].ComicPage? && pages[i].sourcePageId == source.value.id
  }

  /** The position falls on the first page it can fall on, if there is one. */
  ghost predicate FallsOn(document: ReaderDocument, pages: seq<ReaderPage>, location: ReaderLocation, r: Option<nat>) {
    match r
    case Some(i) => Hits(document, pages, location, i) && forall j | 0 <= j < i :: !Hits(document, pages, location, j)
    case None => forall j | 0 <= j < |pages| :: !Hits(document, pages, location, j)
  }

  method PageIndexForLocation(document: ReaderDocument, pages: seq<ReaderPage>, location: ReaderLocation)
      returns (r: Option<nat>)
    ensures FallsOn(document, pages, location, r)
  {
    match document
    case Prose(sections, _) =>
      if !location.ProseLocation? || location.offset < 0 {
        return None;
      }
      var block := DocumentBlock(sections, location.blockId);
      if block.None? {
        return None;
      }
      var target := Target(block.value, location.offset);
      for pageIndex := 0 to |pages|
        invariant forall j | 0 <= j < pageIndex :: !Hits(document, pages, location, j)
      {
        if pages[pageIndex].TextPage? {
          var blocks := pages[pageIndex].blocks;
          for k := 0 to |blocks|
            invariant forall l | 0 <= l < k :: !Shows(blocks[l], block.value, target)
          {
            if Shows(blocks[k], block.value, target) {
              return Some(pageIndex);
            }
          }
        }
      }
      return None;
    case Comic(guided, sources) =>
      if !location.ComicLocation? {
        return None;
      }
      var source := FindComicPage(sources, location.pageId);
      if source.None? {
        return None;
      }
      if location.panelOrdinal.Some? && !(guided && HasPanel(source.value, location.panelOrdinal.value)) {
        return None;
      }
      for pageIndex := 0 to |pages|
        invariant forall j | 0 <= j < pageIndex :: !Hits(document, pages, location, j)
      {
        if pages[pageIndex].ComicPage? && pages[pageIndex].sourcePageId == source.value.id {
          return Some(pageIndex);
        }
      }
      return None;
  }

  // ---------- page to position ----------

  /** The start of the first shown piece that refers to a known block within its bounds. */
  function FirstPosition(blocks: seq<Block>, rendered: seq<RenderedBlock>): Option<ReaderLocation> {
    if rendered == [] then None
    else
      var block := FindBlock(blocks, rendered[0].sourceBlockId);
      if block.Some? && ValidRenderedBlock(rendered[0], VisibleLength(block.value.content))
      then Some(ProseLocation(rendered[0].sourceBlockId, rendered[0].sourceStartOffset))
      else FirstPosition(blocks, rendered[1..])
  }

  /** The smallest panel ordinal: what sorting by ordinal puts first. */
  function LeastOrdinal(panels: seq<Panel>): (least: int)
    requires panels != []
    ensures forall k | 0 <= k < |panels| :: least <= panels[k].ordinal
    ensures exists k | 0 <= k < |panels| :: panels[k].ordinal == least
  {
    if |panels| == 1 then panels[0].ordinal
    else
      var rest := LeastOrdinal(panels[1..]);
      assert forall k | 0 < k < |panels| :: panels[k] == panels[1..][k - 1];
      assert forall k | 0 <= k < |panels| - 1 :: panels[1..][k] == panels[k + 1];
      if panels[0].ordinal < rest then panels[0].ordinal else rest
  }

  function PositionOfPage(document: ReaderDocument, pages: seq<ReaderPage>, pageIndex: int,
                          mode: ComicMode): Option<ReaderLocation> {
    if pageIndex < 0 || pageIndex >= |pages| then None
    else
      var page := pages[pageIndex];
      match document
      case Prose(sections, _) => if page.TextPage? then FirstPosition(Blocks(sections), page.blocks) else None
      case Comic(guided, sources) =>
        if !page.ComicPage? then None
        else
          var source := FindComicPage(sources, page.sourcePageId);
          if source.None? then None
          else if mode.PageMode? then Some(ComicLocation(source.value.id, None))
          else if !guided || source.value.panels == [] then None
          else Some(ComicLocation(source.value.id, Some(LeastOrdinal(source.value.panels))))
  }

  method LocationForPage(document: ReaderDocument, pages: seq<ReaderPage>, pageIndex: int, mode: ComicMode)
      returns (r: Option<ReaderLocation>)
    ensures r == PositionOfPage(document, pages, pageIndex, mode)
  {
    if pageIndex < 0 || pageIndex >= |pages| {
      return None;
    }
    if document.Comic? || !pages[pageIndex].TextPage? {
      return PositionOfPage(document, pages, pageIndex, mode);
    }
    var rendered := pages[pageIndex].blocks;
    for k := 0 to |rendered|
      invariant FirstPosition(Blocks(document.sections), rendered)
             == FirstPosition(Blocks(document.sections), rendered[k..])
    {
      assert rendered[k..][1..] == rendered[k + 1..];
      var block := DocumentBlock(document.sections, rendered[k].sourceBlockId);
      if block.Some? && ValidRenderedBlock(rendered[k], VisibleLength(block.value.content)) {
        return Some(ProseLocation(rendered[k].sourceBlockId, rendered[k].sourceStartOffset));
      }
    }
    return None;
  }
}
