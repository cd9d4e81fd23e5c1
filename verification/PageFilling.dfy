/** The paginator's filling loop: blocks go onto pages greedily, long paragraphs onto pages of their own. */
module PageFilling {
  import opened Wrappers
  import opened Text
  import opened Publication
  import opened PageLayout
  import opened Pagination

  /** A paginator in the middle of a section: the pages pushed so far and the open page. */
  datatype Filling = Filling(pages: seq<ReaderPage>, pageBlocks: seq<RenderedBlock>, pageCost: nat, pageOffset: int)

  /** The context a section is filled in. */
  datatype Context = Context(section: Section, images: seq<ImageLink>, box: PageBox, before: nat)

  // ---------- the open page ----------

  /** The pages pushed so far are well cut and show the pieces between their cuts. */
  ghost predicate Pushed(c: Context, pages: seq<ReaderPage>, placed: seq<Placed>, cuts: seq<nat>) {
    && WellCut(placed, cuts, Budget(c.box))
    && ShowsCuts(pages, c.section.ordinal, c.before, c.section.blocks, placed, cuts)
  }

  /** The open page holds the pieces from `open` on and keeps the budget. */
  ghost predicate Open(c: Context, f: Filling, placed: seq<Placed>, open: nat) {
    && open <= |placed|
    && f.pageBlocks == Shown(placed[open..])
    && (open == |placed| ==> f.pageCost == 0)
    && (open < |placed| ==>
          && placed[open].src <= |c.section.blocks|
          && f.pageOffset == PlaceOf(c.section.blocks, placed[open])
          && (placed[open].split || f.pageCost == Span(placed, open, |placed|))
          && Fits(placed, Budget(c.box), open, |placed|))
  }

  /** Pages and open page together hold the pieces placed so far. */
  ghost predicate Filled(c: Context, f: Filling, placed: seq<Placed>, cuts: seq<nat>) {
    Pushed(c, f.pages, placed, cuts) && |cuts| > 0 && Open(c, f, placed, cuts[|cuts| - 1])
  }

  /** No page is open, and the last page pushed takes no further piece of the given weight. */
  predicate Closed(placed: seq<Placed>, cuts: seq<nat>, weight: nat, budget: nat) {
    |cuts| > 1 ==> Span(placed, cuts[|cuts| - 2], |placed|) + weight > budget
  }

  lemma FilledFacts(c: Context, f: Filling, placed: seq<Placed>, cuts: seq<nat>)
    requires Filled(c, f, placed, cuts)
    ensures |cuts| == |f.pages| + 1 && cuts[|cuts| - 1] <= |placed|
    ensures |f.pageBlocks| == |placed| - cuts[|cuts| - 1]
  {
  }

  /** The pushPage closure. */
  method PushPage(c: Context, f: Filling, ghost placed: seq<Placed>, ghost cuts: seq<nat>)
      returns (g: Filling, ghost cuts': seq<nat>)
    requires Filled(c, f, placed, cuts)
    ensures Filled(c, g, placed, cuts') && g.pageBlocks == [] && g.pageCost == 0 && g.pageOffset == f.pageOffset
    ensures cuts' == if f.pageBlocks == [] then cuts else cuts + [|placed|]
    ensures |cuts'| > 0 && cuts'[|cuts'| - 1] == |placed|
  {
    FilledFacts(c, f, placed, cuts);
    if |f.pageBlocks| == 0 {
      return f, cuts;
    }
    var page := MakePage(c.section.ordinal, f.pageOffset, f.pageBlocks, c.before + |f.pages|);
    g := Filling(f.pages + [page], [], 0, f.pageOffset);
    cuts' := cuts + [|placed|];
    ghost var open := cuts[|cuts| - 1];
    assert placed[open..|placed|] == placed[open..];
    assert ShowsPieces(page, c.section.ordinal, c.before + |f.pages|, c.section.blocks, placed, open, |placed|);
    CutAtEnd(placed, cuts, Budget(c.box));
    ShowsOneMore(f.pages, c.section.ordinal, c.before, c.section.blocks, placed, cuts, page);
    assert placed[|placed|..] == [];
    hide WellCut, ShowsCuts, ShowsPieces, Span, PlaceOf;
  }

  lemma CutAtEnd(placed: seq<Placed>, cuts: seq<nat>, budget: nat)
    requires WellCut(placed, cuts, budget)
    requires cuts[|cuts| - 1] < |placed| && Fits(placed, budget, cuts[|cuts| - 1], |placed|)
    ensures WellCut(placed, cuts + [|placed|], budget)
  {
    assert Full(placed, budget, cuts[|cuts| - 1], |placed|);
    hide Fits, Full;
  }

  lemma ShowsOneMore(pages: seq<ReaderPage>, chapter: int, before: nat, blocks: seq<Block>,
                     placed: seq<Placed>, cuts: seq<nat>, page: ReaderPage)
    requires ShowsCuts(pages, chapter, before, blocks, placed, cuts)
    requires ShowsPieces(page, chapter, before + |pages|, blocks, placed, cuts[|cuts| - 1], |placed|)
    ensures ShowsCuts(pages + [page], chapter, before, blocks, placed, cuts + [|placed|])
  {
    hide ShowsPieces;
  }

  // ---------- a further piece ----------

  /** What a piece needs to join the open page, or to open one. */
  ghost predicate Joins(c: Context, f: Filling, placed: seq<Placed>, cuts: seq<nat>, x: Placed, cost: nat)
    requires |cuts| > 0
  {
    var open := cuts[|cuts| - 1];
    && x.src <= |c.section.blocks|
    && (x.split || cost == f.pageCost + x.weight)
    && (f.pageBlocks == [] ==>
          f.pageOffset == PlaceOf(c.section.blocks, x) && Closed(placed, cuts, x.weight, Budget(c.box)))
    && (f.pageBlocks != [] ==> cost <= Budget(c.box) && !x.split && (open < |placed| ==> !placed[open].split))
  }

  lemma FilledAppend(c: Context, f: Filling, placed: seq<Placed>, cuts: seq<nat>, x: Placed, cost: nat)
    requires Filled(c, f, placed, cuts) && Joins(c, f, placed, cuts, x, cost)
    ensures Filled(c, f.(pageBlocks := f.pageBlocks + [x.block], pageCost := cost), placed + [x], cuts)
  {
    FilledFacts(c, f, placed, cuts);
    WellCutAppend(placed, cuts, Budget(c.box), x);
    ShowsAppend(f.pages, c.section.ordinal, c.before, c.section.blocks, placed, cuts, x);
    hide WellCut, ShowsCuts, Closed, Budget;
    OpenAppend(c, f, placed, cuts[|cuts| - 1], x, cost);
    hide Open;
  }

  lemma OpenAppend(c: Context, f: Filling, placed: seq<Placed>, open: nat, x: Placed, cost: nat)
    requires Open(c, f, placed, open) && x.src <= |c.section.blocks|
    requires x.split || cost == f.pageCost + x.weight
    requires f.pageBlocks == [] ==> f.pageOffset == PlaceOf(c.section.blocks, x)
    requires f.pageBlocks != [] ==> cost <= Budget(c.box) && !x.split && (open < |placed| ==> !placed[open].split)
    ensures Open(c, f.(pageBlocks := f.pageBlocks + [x.block], pageCost := cost), placed + [x], open)
  {
    SpanAppend(placed, x, open);
    ShownAppend(placed, open, x);
    assert open == |placed| ==> Span(placed, open, |placed|) == 0;
    hide Span, PlaceOf, Budget, Shown;
  }

  lemma ShownAppend(placed: seq<Placed>, open: nat, x: Placed)
    requires open <= |placed|
    ensures Shown((placed + [x])[open..]) == Shown(placed[open..]) + [x.block]
    ensures Shown(placed[open..]) == [] <==> open == |placed|
  {
    assert (placed + [x])[open..] == placed[open..] + [x];
  }

  lemma WellCutAppend(placed: seq<Placed>, cuts: seq<nat>, budget: nat, x: Placed)
    requires WellCut(placed, cuts, budget)
    requires cuts[|cuts| - 1] == |placed| ==> Closed(placed, cuts, x.weight, budget)
    ensures WellCut(placed + [x], cuts, budget)
  {
    hide Span;
    forall p | 0 < p < |cuts|
      ensures Fits(placed + [x], budget, cuts[p - 1], cuts[p]) && Full(placed + [x], budget, cuts[p - 1], cuts[p])
    {
      CutsRise(cuts, |placed|, p, |cuts| - 1);
      SpanAppend(placed, x, cuts[p - 1]);
      assert Fits(placed, budget, cuts[p - 1], cuts[p]) && Full(placed, budget, cuts[p - 1], cuts[p]);
    }
    hide Fits, Full;
  }

  lemma ShowsAppend(pages: seq<ReaderPage>, chapter: int, before: nat, blocks: seq<Block>,
                    placed: seq<Placed>, cuts: seq<nat>, x: Placed)
    requires ShowsCuts(pages, chapter, before, blocks, placed, cuts)
    ensures ShowsCuts(pages, chapter, before, blocks, placed + [x], cuts)
  {
    forall p | 0 < p < |cuts|
      ensures ShowsPieces(pages[p - 1], chapter, before + p - 1, blocks, placed + [x], cuts[p - 1], cuts[p])
    {
      assert ShowsPieces(pages[p - 1], chapter, before + p - 1, blocks, placed, cuts[p - 1], cuts[p]);
      assert (placed + [x])[cuts[p - 1]..cuts[p]] == placed[cuts[p - 1]..cuts[p]];
    }
  }

  // ---------- one block ----------

  /** Between two blocks: everything before block `i` is placed, and an empty page follows only a
      page that takes nothing more. */
  ghost predicate Ready(c: Context, f: Filling, placed: seq<Placed>, cuts: seq<nat>, i: nat) {
    && Chain(c.section.blocks, c.images, c.box, placed) && AtTip(c.section.blocks, placed, i, 0)
    && Filled(c, f, placed, cuts)
    && (if f.pageBlocks == [] then Closed(placed, cuts, 0, Budget(c.box))
        else cuts[|cuts| - 1] < |placed| && !placed[cuts[|cuts| - 1]].split)
  }

  /** A block that is not split joins the open page if it fits, and otherwise opens the next. */
  method PlaceBlock(c: Context, i: nat, f: Filling, sectionOffset: nat, ghost placed: seq<Placed>, ghost cuts: seq<nat>)
      returns (g: Filling, ghost placed': seq<Placed>, ghost cuts': seq<nat>)
    requires i < |c.section.blocks| && !Oversized(c.section.blocks[i].content, c.box)
    requires sectionOffset == OffsetBefore(c.section.blocks, i) && Ready(c, f, placed, cuts, i)
    ensures Ready(c, g, placed', cuts', i + 1)
  {
    var block := c.section.blocks[i];
    var cost := BlockCost(block.content, c.box);
    var rendered := Whole(block, c.images);
    ghost var x := Placed(rendered, i, cost, false);
    assert IsPieceOf(x, block, c.images, c.box);
    ChainAppend(c.section.blocks, c.images, c.box, placed, i, 0, x);
    FilledFacts(c, f, placed, cuts);
    assert x.block.sourceEndOffset == VisibleLength(block.content) && PlaceOf(c.section.blocks, x) == sectionOffset;
    hide Chain, AtTip, IsPieceOf, Pushed, Budget, BlockCost, OffsetBefore, PlaceOf, Oversized;
    g, cuts' := f, cuts;
    if |g.pageBlocks| > 0 && g.pageCost + cost > Budget(c.box) {
      g, cuts' := PushPage(c, g, placed, cuts');
      g := g.(pageOffset := sectionOffset);
    }
    if |g.pageBlocks| == 0 {
      g := g.(pageOffset := sectionOffset);
    }
    FilledAppend(c, g, placed, cuts', x, g.pageCost + cost);
    placed' := placed + [x];
    g := g.(pageBlocks := g.pageBlocks + [rendered], pageCost := g.pageCost + cost);
  }

  // ---------- a paragraph too long for a page ----------

  /** Inside the paragraph at block `i`, `consumed` characters in; no page is open. */
  ghost predicate Between(c: Context, f: Filling, placed: seq<Placed>, cuts: seq<nat>, i: nat, consumed: nat) {
    && i < |c.section.blocks|
    && Chain(c.section.blocks, c.images, c.box, placed)
    && (if consumed == VisibleLength(c.section.blocks[i].content)
        then AtTip(c.section.blocks, placed, i + 1, 0) && Closed(placed, cuts, 0, Budget(c.box))
        else AtTip(c.section.blocks, placed, i, consumed))
    && Filled(c, f, placed, cuts) && f.pageBlocks == []
  }

  /** The characters from `start` on that a chunk of block `i` holds; it is full unless it is the last. */
  ghost predicate IsChunk(c: Context, i: nat, start: nat, chunk: Fragments) {
    && i < |c.section.blocks| && Oversized(c.section.blocks[i].content, c.box)
    && var fragments := c.section.blocks[i].content.fragments;
       var end := start + FragmentLength(chunk);
       && start < end <= FragmentLength(fragments) && end - start <= Capacity(c.box)
       && (end < FragmentLength(fragments) ==> end - start == Capacity(c.box))
       && Characters(chunk) == Characters(fragments)[start..end] && NoEmptyLink(chunk)
  }

  function ChunkBlock(block: Block, start: nat, chunk: Fragments): RenderedBlock {
    RenderedBlock(block.id, start, start + FragmentLength(chunk), Paragraph(chunk), None)
  }

  lemma ChunkPlaced(c: Context, placed: seq<Placed>, i: nat, consumed: nat, chunk: Fragments, x: Placed)
    requires i < |c.section.blocks| && IsChunk(c, i, consumed, chunk)
    requires x == Placed(ChunkBlock(c.section.blocks[i], consumed, chunk), i, Budget(c.box) + 1, true)
    requires Chain(c.section.blocks, c.images, c.box, placed) && AtTip(c.section.blocks, placed, i, consumed)
    ensures Chain(c.section.blocks, c.images, c.box, placed + [x])
    ensures var end := consumed + FragmentLength(chunk);
      if end == VisibleLength(c.section.blocks[i].content)
      then AtTip(c.section.blocks, placed + [x], i + 1, 0) else AtTip(c.section.blocks, placed + [x], i, end)
  {
    assert IsPieceOf(x, c.section.blocks[i], c.images, c.box);
    ChainAppend(c.section.blocks, c.images, c.box, placed, i, consumed, x);
  }

  lemma ChunkEnds(c: Context, i: nat, consumed: nat, chunk: Fragments)
    requires IsChunk(c, i, consumed, chunk)
    ensures i < |c.section.blocks| && consumed < VisibleLength(c.section.blocks[i].content)
  {
  }

  /** A chunk weighs more than a page holds, so it opens a page whatever stands before, and closes it. */
  lemma ChunkStandsAlone(placed: seq<Placed>, cuts: seq<nat>, x: Placed, budget: nat)
    requires x.weight == budget + 1 && |cuts| > 0
    ensures Closed(placed, cuts, x.weight, budget)
    ensures cuts[|cuts| - 1] == |placed| ==> Closed(placed + [x], cuts + [|placed| + 1], 0, budget)
  {
    if |cuts| > 1 {
      SpanPositive(placed, cuts[|cuts| - 2], |placed|);
    }
    SpanAppend(placed, x, |placed|);
    assert Span(placed, |placed|, |placed|) == 0;
    hide Span;
  }

  method PlaceChunk(c: Context, i: nat, f: Filling, sectionOffset: nat, consumed: nat, chunk: Fragments,
                    ghost placed: seq<Placed>, ghost cuts: seq<nat>)
      returns (g: Filling, ghost placed': seq<Placed>, ghost cuts': seq<nat>)
    requires Between(c, f, placed, cuts, i, consumed) && IsChunk(c, i, consumed, chunk)
    requires sectionOffset == OffsetBefore(c.section.blocks, i)
    ensures Between(c, g, placed', cuts', i, consumed + FragmentLength(chunk))
  {
    hide Chain, AtTip, Closed, Budget, BlockCost, OffsetBefore, IsChunk, Filled, Characters, FragmentLength;
    var rendered := ChunkBlock(c.section.blocks[i], consumed, chunk);
    ghost var x := Placed(rendered, i, Budget(c.box) + 1, true);
    ChunkEnds(c, i, consumed, chunk);
    ChunkPlaced(c, placed, i, consumed, chunk, x);
    FilledFacts(c, f, placed, cuts);
    OffsetFree(c, f, placed, cuts, sectionOffset + consumed);
    ChunkStandsAlone(placed, cuts, x, Budget(c.box));
    var cost := BlockCost(rendered.content, c.box);
    g := f.(pageOffset := sectionOffset + consumed);
    FilledAppend(c, g, placed, cuts, x, cost);
    placed' := placed + [x];
    assert g.pageBlocks + [rendered] == [rendered];
    g := g.(pageBlocks := [rendered], pageCost := cost);
    g, cuts' := PushPage(c, g, placed', cuts);
  }

  /** With no page open, the page offset is free. */
  lemma OffsetFree(c: Context, f: Filling, placed: seq<Placed>, cuts: seq<nat>, offset: int)
    requires Filled(c, f, placed, cuts) && f.pageBlocks == []
    ensures Filled(c, f.(pageOffset := offset), placed, cuts)
  {
  }

  lemma ReadyFacts(c: Context, f: Filling, placed: seq<Placed>, cuts: seq<nat>, i: nat)
    requires Ready(c, f, placed, cuts, i)
    ensures Chain(c.section.blocks, c.images, c.box, placed) && AtTip(c.section.blocks, placed, i, 0)
    ensures Filled(c, f, placed, cuts)
  {
  }

  lemma EnterParagraph(c: Context, f: Filling, placed: seq<Placed>, cuts: seq<nat>, i: nat)
    requires i < |c.section.blocks| && Oversized(c.section.blocks[i].content, c.box)
    requires Chain(c.section.blocks, c.images, c.box, placed) && AtTip(c.section.blocks, placed, i, 0)
    requires Filled(c, f, placed, cuts) && f.pageBlocks == []
    ensures Between(c, f, placed, cuts, i, 0)
  {
    hide Chain, AtTip, Filled;
    BoxFacts(c.box);
    assert VisibleLength(c.section.blocks[i].content) > 0;
  }

  lemma LeaveParagraph(c: Context, f: Filling, placed: seq<Placed>, cuts: seq<nat>, i: nat, offset: int)
    requires i < |c.section.blocks| && Between(c, f, placed, cuts, i, VisibleLength(c.section.blocks[i].content))
    ensures Ready(c, f.(pageOffset := offset), placed, cuts, i + 1)
  {
    OffsetFree(c, f, placed, cuts, offset);
  }

  /** Each chunk is pushed as a page of its own. */
  method PlaceParagraph(c: Context, i: nat, f: Filling, sectionOffset: nat, ghost placed: seq<Placed>,
                        ghost cuts: seq<nat>)
      returns (g: Filling, ghost placed': seq<Placed>, ghost cuts': seq<nat>)
    requires i < |c.section.blocks| && Oversized(c.section.blocks[i].content, c.box)
    requires sectionOffset == OffsetBefore(c.section.blocks, i) && Ready(c, f, placed, cuts, i)
    ensures Ready(c, g, placed', cuts', i + 1)
  {
    hide Ready, Between, Filled, Chain, AtTip, ChunkCharacters, Characters, IsSplit, Capacity, OffsetBefore,
      FragmentLength;
    var fragments := c.section.blocks[i].content.fragments;
    BoxFacts(c.box);
    ReadyFacts(c, f, placed, cuts, i);
    g, cuts' := PushPage(c, f, placed, cuts);
    placed' := placed;
    EnterParagraph(c, g, placed, cuts', i);
    var chunks := SplitFragments(fragments, Capacity(c.box));
    var consumed := 0;
    NoChunks(chunks);
    for j := 0 to |chunks|
      invariant consumed == |ChunkCharacters(chunks[..j])|
      invariant Between(c, g, placed', cuts', i, consumed)
    {
      ChunkRange(fragments, Capacity(c.box), chunks, j);
      g, placed', cuts' := PlaceChunk(c, i, g, sectionOffset, consumed, chunks[j], placed', cuts');
      consumed := consumed + FragmentLength(chunks[j]);
    }
    AllChunks(fragments, Capacity(c.box), chunks);
    LeaveParagraph(c, g, placed', cuts', i, sectionOffset + consumed);
    g := g.(pageOffset := sectionOffset + consumed);
  }

  // ---------- one section, and all of them ----------

  lemma SectionStart(c: Context)
    ensures Ready(c, Filling([], [], 0, 0), [], [0], 0)
  {
  }

  lemma SectionDone(c: Context, f: Filling, placed: seq<Placed>, cuts: seq<nat>)
    requires Chain(c.section.blocks, c.images, c.box, placed) && AtTip(c.section.blocks, placed, |c.section.blocks|, 0)
    requires Filled(c, f, placed, cuts) && cuts[|cuts| - 1] == |placed|
    ensures IsSectionLayout(c.section, c.images, c.box, c.before, f.pages, placed, cuts)
  {
    hide Chain, AtTip, WellCut, ShowsCuts, Open;
  }

  /** The pages of one section: every block once and in order, greedily cut. */
  method SectionPages(c: Context) returns (pages: seq<ReaderPage>, ghost placed: seq<Placed>, ghost cuts: seq<nat>)
    ensures IsSectionLayout(c.section, c.images, c.box, c.before, pages, placed, cuts)
  {
    hide Ready, Chain, AtTip, Filled, IsSectionLayout, Oversized;
    var f := Filling([], [], 0, 0);
    var sectionOffset := 0;
    placed, cuts := [], [0];
    SectionStart(c);
    for i := 0 to |c.section.blocks|
      invariant sectionOffset == OffsetBefore(c.section.blocks, i)
      invariant Ready(c, f, placed, cuts, i)
    {
      var content := c.section.blocks[i].content;
      if Oversized(content, c.box) {
        f, placed, cuts := PlaceParagraph(c, i, f, sectionOffset, placed, cuts);
      } else {
        f, placed, cuts := PlaceBlock(c, i, f, sectionOffset, placed, cuts);
      }
      sectionOffset := sectionOffset + BlockLength(content);
    }
    ReadyFacts(c, f, placed, cuts, |c.section.blocks|);
    f, cuts := PushPage(c, f, placed, cuts);
    SectionDone(c, f, placed, cuts);
    return f.pages, placed, cuts;
  }

  /** The layout of one section of a paginated document, and the number of pages before it. */
  datatype SectionLayout = SectionLayout(before: nat, placed: seq<Placed>, cuts: seq<nat>)

  /** The pages are those of the sections, one after the other. */
  ghost predicate IsPagination(sections: seq<Section>, images: seq<ImageLink>, box: PageBox,
                               pages: seq<ReaderPage>, layouts: seq<SectionLayout>) {
    if sections == [] then pages == [] && layouts == []
    else
      && layouts != []
      && var n, last := |sections| - 1, layouts[|layouts| - 1];
         && last.before <= |pages|
         && IsPagination(sections[..n], images, box, pages[..last.before], layouts[..|layouts| - 1])
         && IsSectionLayout(sections[n], images, box, last.before, pages[last.before..], last.placed, last.cuts)
  }

  lemma PaginationAppend(sections: seq<Section>, images: seq<ImageLink>, box: PageBox, pages: seq<ReaderPage>,
                         layouts: seq<SectionLayout>, section: Section, pages': seq<ReaderPage>, placed: seq<Placed>,
                         cuts: seq<nat>)
    requires IsPagination(sections, images, box, pages, layouts)
    requires IsSectionLayout(section, images, box, |pages|, pages', placed, cuts)
    ensures IsPagination(sections + [section], images, box, pages + pages',
              layouts + [SectionLayout(|pages|, placed, cuts)])
  {
    hide IsSectionLayout;
    var all, last := layouts + [SectionLayout(|pages|, placed, cuts)], SectionLayout(|pages|, placed, cuts);
    assert (sections + [section])[..|sections|] == sections;
    assert all[..|all| - 1] == layouts && all[|all| - 1] == last;
    assert (pages + pages')[..|pages|] == pages && (pages + pages')[|pages|..] == pages';
  }

  /** All pages of a prose document, and how they lie: section by section, and as one sequence. */
  method ProsePages(sections: seq<Section>, images: seq<ImageLink>, box: PageBox)
      returns (pages: seq<ReaderPage>, ghost layouts: seq<SectionLayout>,
               ghost placed: seq<Placed>, ghost cuts: seq<nat>)
    ensures IsPagination(sections, images, box, pages, layouts)
    ensures IsDocumentLayout(Blocks(sections), images, box, pages, placed, cuts)
  {
    hide IsSectionLayout, IsDocumentLayout, IsPagination, Blocks;
    pages, layouts, placed, cuts := [], [], [], [0];
    NothingPaginated(sections, images, box);
    for s := 0 to |sections|
      invariant IsPagination(sections[..s], images, box, pages, layouts)
      invariant IsDocumentLayout(Blocks(sections[..s]), images, box, pages, placed, cuts)
    {
      var more, placed', cuts' := SectionPages(Context(sections[s], images, box, |pages|));
      assert sections[..s + 1] == sections[..s] + [sections[s]];
      BlocksAppend(sections[..s], sections[s]);
      PaginationAppend(sections[..s], images, box, pages, layouts, sections[s], more, placed', cuts');
      LayoutConcat(Blocks(sections[..s]), sections[s], images, box, pages, placed, cuts, more, placed', cuts');
      layouts := layouts + [SectionLayout(|pages|, placed', cuts')];
      cuts := JoinCuts(cuts, cuts', |placed|);
      placed := placed + Shift(placed', |Blocks(sections[..s])|);
      pages := pages + more;
    }
    assert sections[..|sections|] == sections;
  }

  lemma NothingPaginated(sections: seq<Section>, images: seq<ImageLink>, box: PageBox)
    ensures IsPagination(sections[..0], images, box, [], [])
    ensures IsDocumentLayout(Blocks(sections[..0]), images, box, [], [], [0])
  {
  }

  lemma BlocksAppend(sections: seq<Section>, section: Section)
    ensures Blocks(sections + [section]) == Blocks(sections) + section.blocks
  {
    assert (sections + [section])[..|sections|] == sections;
  }

  // ---------- comics, and either format ----------

  function Numeral(n: int): string {
    if n < 0 then "-" + Digits(-n, 10) else Digits(n, 10)
  }

  /** One page per source page, in order. */
  function ComicPages(sources: seq<ComicSource>): (pages: seq<ReaderPage>)
    ensures |pages| == |sources|
    ensures forall i | 0 <= i < |pages| ::
      && pages[i].ComicPage? && pages[i].sourcePageId == sources[i].id && pages[i].at == i
      && pages[i].imageUrl == sources[i].url && pages[i].imageWidth == sources[i].width
      && pages[i].imageHeight == sources[i].height && pages[i].panels == sources[i].panels
  {
    seq(|sources|, i requires 0 <= i < |sources| =>
      var s := sources[i];
      ComicPage(s.id, i, Digits(i + 1, 10), "Page " + Numeral(s.ordinal), s.url, s.width, s.height, s.panels))
  }

  /** Section by section the pages are greedily cut, and all together they show the whole document. */
  ghost predicate IsProsePagination(sections: seq<Section>, images: seq<ImageLink>, box: PageBox,
                                    pages: seq<ReaderPage>,
                                    layouts: seq<SectionLayout>, placed: seq<Placed>, cuts: seq<nat>) {
    && IsPagination(sections, images, box, pages, layouts)
    && IsDocumentLayout(Blocks(sections), images, box, pages, placed, cuts)
  }

  /** Pages that the paginator makes of the document for some layout. */
  ghost predicate IsPaginated(document: ReaderDocument, box: PageBox, pages: seq<ReaderPage>) {
    match document
    case Prose(sections, images) =>
      exists layouts, placed, cuts :: IsProsePagination(sections, images, box, pages, layouts, placed, cuts)
    case Comic(_, sources) => pages == ComicPages(sources)
  }

  method PaginatePublication(document: ReaderDocument, box: PageBox) returns (pages: seq<ReaderPage>)
    ensures IsPaginated(document, box, pages)
  {
    match document
    case Prose(sections, images) =>
      ghost var layouts, placed, cuts;
      pages, layouts, placed, cuts := ProsePages(sections, images, box);
      assert IsProsePagination(sections, images, box, pages, layouts, placed, cuts);
    case Comic(_, sources) =>
      pages := ComicPages(sources);
  }
}
