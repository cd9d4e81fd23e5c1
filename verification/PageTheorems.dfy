/** What the layout of a section guarantees: the fewest pages, the budget, the place numbers, and
    that no styled character is lost, repeated or restyled. */
module PageTheorems {
  import opened Wrappers
  import opened Publication
  import opened PageLayout

  // ---------- the fewest pages ----------

  /** Another way to group the pieces in order: every group is one piece or keeps the budget. */
  ghost predicate IsGrouping(placed: seq<Placed>, others: seq<nat>, budget: nat) {
    && Cuts(others, |placed|) && others[|others| - 1] == |placed|
    && forall p | 0 < p < |others| :: others[p - 1] < others[p] && Fits(placed, budget, others[p - 1], others[p])
  }

  lemma {:induction false} WeightMonotone(placed: seq<Placed>, a: nat, b: nat)
    requires a <= b <= |placed|
    ensures Weight(placed, a) <= Weight(placed, b)
    decreases b
  {
    if a >= b {
    } else {
      WeightMonotone(placed, a, b - 1);
    }
  }

  /** After the same number of pages, the greedy filler is at least as far. */
  lemma {:induction false} GreedyStaysAhead(placed: seq<Placed>, cuts: seq<nat>, others: seq<nat>, budget: nat, k: nat)
    requires WellCut(placed, cuts, budget) && IsGrouping(placed, others, budget)
    requires k < |cuts| && k < |others|
    ensures cuts[k] >= others[k]
  {
    if k == 0 {
    } else {
      GreedyStaysAhead(placed, cuts, others, budget, k - 1);
      var a, b := others[k - 1], others[k];
      CutsRise(others, |placed|, k, |others| - 1);
      assert Fits(placed, budget, a, b) && Full(placed, budget, cuts[k - 1], cuts[k]);
      if cuts[k] < b {
        WeightMonotone(placed, a, cuts[k - 1]);
        WeightMonotone(placed, cuts[k] + 1, b);
      }
    }
  }

  /** Of all groupings the greedy one has the fewest pages. */
  lemma GreedyFewest(placed: seq<Placed>, cuts: seq<nat>, others: seq<nat>, budget: nat)
    requires WellCut(placed, cuts, budget) && cuts[|cuts| - 1] == |placed| && IsGrouping(placed, others, budget)
    ensures |cuts| <= |others|
  {
    if |others| < |cuts| {
      GreedyStaysAhead(placed, cuts, others, budget, |others| - 1);
      CutsRise(cuts, |placed|, |others| - 1, |cuts| - 1);
    }
  }

  ghost predicate NothingOversized(blocks: seq<Block>, box: PageBox) {
    forall b | 0 <= b < |blocks| :: !Oversized(blocks[b].content, box)
  }

  /** What the blocks from `a` to `b` cost together. */
  function GroupCost(blocks: seq<Block>, box: PageBox, a: nat, b: nat): nat
    requires a <= b <= |blocks|
    decreases b
  {
    if a == b then 0 else GroupCost(blocks, box, a, b - 1) + BlockCost(blocks[b - 1].content, box)
  }

  /** Without an over-budget paragraph there is one piece per block, weighing what the block costs. */
  lemma {:induction false} OnePiecePerBlock(blocks: seq<Block>, images: seq<ImageLink>, box: PageBox,
                                            placed: seq<Placed>, k: nat)
    requires Chain(blocks, images, box, placed) && NothingOversized(blocks, box) && k < |placed|
    ensures placed[k].src == k < |blocks| && placed[k].weight == BlockCost(blocks[k].content, box)
    ensures placed[k].block == Whole(blocks[k], images)
  {
    if k == 0 {
    } else {
      OnePiecePerBlock(blocks, images, box, placed, k - 1);
      assert Follows(blocks, placed[k - 1], placed[k]);
    }
  }

  lemma {:induction false} SpanIsCost(blocks: seq<Block>, images: seq<ImageLink>, box: PageBox, placed: seq<Placed>,
                                      a: nat, b: nat)
    requires Chain(blocks, images, box, placed) && NothingOversized(blocks, box)
    requires a <= b <= |placed| <= |blocks|
    ensures Span(placed, a, b) == GroupCost(blocks, box, a, b)
    decreases b
  {
    hide Chain, BlockCost, NothingOversized;
    if a >= b {
    } else {
      OnePiecePerBlock(blocks, images, box, placed, b - 1);
      SpanIsCost(blocks, images, box, placed, a, b - 1);
    }
  }

  /** For a section with no over-budget paragraph: no contiguous grouping of its blocks, in which every
      group is a single block or costs at most the budget, has fewer groups than there are pages. */
  lemma GreedyIsOptimal(section: Section, images: seq<ImageLink>, box: PageBox, before: nat,
                        pages: seq<ReaderPage>, placed: seq<Placed>, cuts: seq<nat>, others: seq<nat>)
    requires IsSectionLayout(section, images, box, before, pages, placed, cuts)
    requires NothingOversized(section.blocks, box)
    requires Cuts(others, |section.blocks|) && others[|others| - 1] == |section.blocks|
    requires forall p | 0 < p < |others| ::
      others[p - 1] < others[p] <= |section.blocks|
      && (others[p] - others[p - 1] >= 2 ==> GroupCost(section.blocks, box, others[p - 1], others[p]) <= Budget(box))
    ensures |pages| <= |others| - 1
  {
    PiecesAreBlocks(section.blocks, images, box, placed);
    forall p | 0 < p < |others| ensures Fits(placed, Budget(box), others[p - 1], others[p]) {
      SpanIsCost(section.blocks, images, box, placed, others[p - 1], others[p]);
    }
    GreedyFewest(placed, cuts, others, Budget(box));
  }

  lemma PiecesAreBlocks(blocks: seq<Block>, images: seq<ImageLink>, box: PageBox, placed: seq<Placed>)
    requires Covers(blocks, images, box, placed) && NothingOversized(blocks, box)
    ensures |placed| == |blocks|
  {
    if placed != [] {
      OnePiecePerBlock(blocks, images, box, placed, |placed| - 1);
    }
  }

  // ---------- the budget of a page ----------

  function ShownCost(blocks: seq<RenderedBlock>, box: PageBox): nat {
    if blocks == [] then 0 else ShownCost(blocks[..|blocks| - 1], box) + BlockCost(blocks[|blocks| - 1].content, box)
  }

  /** A piece costs what it weighs, or is a chunk, which fits a page. */
  lemma PieceCost(x: Placed, block: Block, images: seq<ImageLink>, box: PageBox)
    requires IsPieceOf(x, block, images, box)
    ensures if x.split then x.weight > Budget(box) >= BlockCost(x.block.content, box)
            else x.weight == BlockCost(x.block.content, box)
    ensures BlockCost(x.block.content, box) > Budget(box) ==>
      x.block.content.Heading? || x.block.content.Quote? || x.block.content.List?
  {
    BoxFacts(box);
    if !x.split && x.weight > Budget(box) {
      OnlyTextExceeds(block.content, box);
    }
  }

  lemma {:induction false} ShownCostIsSpan(blocks: seq<Block>, images: seq<ImageLink>, box: PageBox,
                                           placed: seq<Placed>, a: nat, b: nat)
    requires Chain(blocks, images, box, placed) && a <= b <= |placed| && Span(placed, a, b) <= Budget(box)
    ensures ShownCost(Shown(placed[a..b]), box) == Span(placed, a, b)
    decreases b
  {
    hide BlockCost, IsPieceOf, Follows, Budget;
    if a == b {
      assert placed[a..b] == [] && Shown([]) == [];
    }
    if a >= b {
    } else {
      var x := placed[b - 1];
      PieceCost(x, blocks[x.src], images, box);
      WeightMonotone(placed, a, b - 1);
      ShownCostIsSpan(blocks, images, box, placed, a, b - 1);
      ShownLast(placed, a, b);
      ShownCostLast(Shown(placed[a..b - 1]), x.block, box);
    }
  }

  lemma ShownCostLast(blocks: seq<RenderedBlock>, last: RenderedBlock, box: PageBox)
    ensures ShownCost(blocks + [last], box) == ShownCost(blocks, box) + BlockCost(last.content, box)
  {
    assert (blocks + [last])[..|blocks|] == blocks;
  }

  lemma ShownLast(placed: seq<Placed>, a: nat, b: nat)
    requires a < b <= |placed|
    ensures Shown(placed[a..b]) == Shown(placed[a..b - 1]) + [placed[b - 1].block]
  {
    assert placed[a..b] == placed[a..b - 1] + [placed[b - 1]];
  }

  /** A page of two or more blocks keeps the budget; one that does not shows a single heading, quote or list. */
  lemma PageKeepsBudget(section: Section, images: seq<ImageLink>, box: PageBox, before: nat,
                        pages: seq<ReaderPage>, placed: seq<Placed>, cuts: seq<nat>, p: nat)
    requires IsSectionLayout(section, images, box, before, pages, placed, cuts) && p < |pages|
    ensures pages[p].TextPage? && pages[p].blocks != []
    ensures |pages[p].blocks| >= 2 ==> ShownCost(pages[p].blocks, box) <= Budget(box)
    ensures |pages[p].blocks| == 1 && BlockCost(pages[p].blocks[0].content, box) > Budget(box) ==>
      var content := pages[p].blocks[0].content; content.Heading? || content.Quote? || content.List?
  {
    var a, b := cuts[p], cuts[p + 1];
    assert ShowsPieces(pages[p], section.ordinal, before + p, section.blocks, placed, cuts[p + 1 - 1], cuts[p + 1]);
    assert Fits(placed, Budget(box), cuts[p + 1 - 1], cuts[p + 1]);
    if b - a >= 2 {
      ShownCostIsSpan(section.blocks, images, box, placed, a, b);
    } else {
      PieceCost(placed[a], section.blocks[placed[a].src], images, box);
    }
  }

  // ---------- place numbers ----------

  /** Places never go back from one piece to the next. */
  lemma {:induction false} PlacesRise(blocks: seq<Block>, images: seq<ImageLink>, box: PageBox, placed: seq<Placed>,
                                      j: nat, k: nat)
    requires Chain(blocks, images, box, placed) && j <= k < |placed|
    ensures PlaceOf(blocks, placed[j]) <= PlaceOf(blocks, placed[k])
    decreases k
  {
    hide IsPieceOf;
    if j >= k {
    } else {
      PlacesRise(blocks, images, box, placed, j, k - 1);
      PieceRange(placed[k - 1], blocks[placed[k - 1].src], images, box);
      PieceRange(placed[k], blocks[placed[k].src], images, box);
      assert Follows(blocks, placed[k - 1], placed[k]);
    }
  }

  /** A page's `at` is the total length of the blocks before its first one, plus the offset it starts
      at inside that block; within a section it never decreases. */
  lemma PlacesOfPages(section: Section, images: seq<ImageLink>, box: PageBox, before: nat,
                      pages: seq<ReaderPage>, placed: seq<Placed>, cuts: seq<nat>, p: nat, q: nat)
    requires IsSectionLayout(section, images, box, before, pages, placed, cuts) && p <= q < |pages|
    ensures cuts[p] < |placed| && placed[cuts[p]].src < |section.blocks| && pages[p].TextPage? && pages[q].TextPage?
    ensures pages[p].blocks != [] && pages[p].blocks[0] == placed[cuts[p]].block
    ensures pages[p].at == OffsetBefore(section.blocks, placed[cuts[p]].src) + pages[p].blocks[0].sourceStartOffset
    ensures pages[p].chapter == section.ordinal
    ensures pages[p].at <= pages[q].at
  {
    assert ShowsPieces(pages[p], section.ordinal, before + p, section.blocks, placed, cuts[p + 1 - 1], cuts[p + 1]);
    assert ShowsPieces(pages[q], section.ordinal, before + q, section.blocks, placed, cuts[q + 1 - 1], cuts[q + 1]);
    CutsRise(cuts, |placed|, p, q);
    PlacesRise(section.blocks, images, box, placed, cuts[p], cuts[q]);
  }

  // ---------- nothing lost, nothing repeated ----------

  ghost function ItemCharacters(items: seq<Fragments>): (s: seq<Styled>)
    ensures |s| == ItemsLength(items)
  {
    if items == [] then [] else ItemCharacters(items[..|items| - 1]) + Characters(items[|items| - 1])
  }

  /** The styled characters a block shows. */
  ghost function ContentCharacters(content: Content): (s: seq<Styled>)
    ensures |s| == VisibleLength(content)
  {
    match content
    case Heading(_, fragments) => Characters(fragments)
    case Paragraph(fragments) => Characters(fragments)
    case Quote(fragments) => Characters(fragments)
    case List(_, items) => ItemCharacters(items)
    case Image(_, _) => []
    case Break => []
  }

  ghost function SourceCharacters(blocks: seq<Block>, b: nat): seq<Styled>
    requires b <= |blocks|
  {
    if b == 0 then [] else SourceCharacters(blocks, b - 1) + ContentCharacters(blocks[b - 1].content)
  }

  ghost function ShownCharacters(placed: seq<Placed>, k: nat): seq<Styled>
    requires k <= |placed|
  {
    if k == 0 then [] else ShownCharacters(placed, k - 1) + ContentCharacters(placed[k - 1].block.content)
  }

  /** A piece shows the characters of its block from its start to its end. */
  lemma PieceCharacters(x: Placed, block: Block, images: seq<ImageLink>, box: PageBox)
    requires IsPieceOf(x, block, images, box)
    ensures 0 <= x.block.sourceStartOffset <= x.block.sourceEndOffset <= VisibleLength(block.content)
    ensures ContentCharacters(x.block.content)
         == ContentCharacters(block.content)[x.block.sourceStartOffset..x.block.sourceEndOffset]
  {
    if !Oversized(block.content, box) {
      var s := ContentCharacters(block.content);
      assert s[0..|s|] == s;
    }
  }

  lemma {:induction false} CharactersUpTo(blocks: seq<Block>, images: seq<ImageLink>, box: PageBox,
                                          placed: seq<Placed>, k: nat)
    requires Chain(blocks, images, box, placed) && k < |placed|
    ensures placed[k].src < |blocks|
    ensures var x := placed[k];
      0 <= x.block.sourceEndOffset <= VisibleLength(blocks[x.src].content)
      && ShownCharacters(placed, k + 1)
         == SourceCharacters(blocks, x.src) + ContentCharacters(blocks[x.src].content)[..x.block.sourceEndOffset]
  {
    hide IsPieceOf, VisibleLength, ContentCharacters;
    var x := placed[k];
    var s := ContentCharacters(blocks[x.src].content);
    PieceCharacters(x, blocks[x.src], images, box);
    if k > 0 {
      CharactersUpTo(blocks, images, box, placed, k - 1);
      assert Follows(blocks, placed[k - 1], x);
      TakeWhole(ContentCharacters(blocks[placed[k - 1].src].content));
    }
    Glue(SourceCharacters(blocks, x.src), s, x.block.sourceStartOffset, x.block.sourceEndOffset);
  }

  lemma Glue(before: seq<Styled>, s: seq<Styled>, a: nat, b: nat)
    requires a <= b <= |s|
    ensures before + s[..a] + s[a..b] == before + s[..b]
    ensures a == 0 ==> before + s[a..b] == before + s[..b]
  {
  }

  lemma TakeWhole(s: seq<Styled>)
    ensures s[..|s|] == s
  {
  }

  /** The blocks of all pages, one page after the other. */
  ghost function AllBlocks(pages: seq<ReaderPage>): seq<RenderedBlock> {
    if pages == [] then []
    else AllBlocks(pages[..|pages| - 1]) + if pages[|pages| - 1].TextPage? then pages[|pages| - 1].blocks else []
  }

  ghost function RenderedCharacters(blocks: seq<RenderedBlock>): seq<Styled> {
    if blocks == [] then []
    else RenderedCharacters(blocks[..|blocks| - 1]) + ContentCharacters(blocks[|blocks| - 1].content)
  }

  /** The pages show the pieces, each once and in order. */
  lemma {:induction false} PagesShowPieces(blocks: seq<Block>, images: seq<ImageLink>, box: PageBox,
                                           pages: seq<ReaderPage>,
                                           placed: seq<Placed>, cuts: seq<nat>, p: nat)
    requires IsDocumentLayout(blocks, images, box, pages, placed, cuts) && p <= |pages|
    ensures cuts[p] <= |placed| && AllBlocks(pages[..p]) == Shown(placed[..cuts[p]])
  {
    hide Covers, Follows;
    if p == 0 {
      assert placed[..0] == [] && Shown([]) == [];
    } else {
      PagesShowPieces(blocks, images, box, pages, placed, cuts, p - 1);
      assert ShowsBlocks(pages[p - 1], placed, cuts[p - 1], cuts[p]);
      assert pages[..p][..p - 1] == pages[..p - 1];
      ShownSplit(placed, cuts[p - 1], cuts[p]);
    }
  }

  lemma ShownSplit(placed: seq<Placed>, a: nat, b: nat)
    requires a <= b <= |placed|
    ensures Shown(placed[..b]) == Shown(placed[..a]) + Shown(placed[a..b])
  {
    assert placed[..b] == placed[..a] + placed[a..b];
  }

  lemma {:induction false} RenderedCharactersAre(placed: seq<Placed>, k: nat)
    requires k <= |placed|
    ensures RenderedCharacters(Shown(placed[..k])) == ShownCharacters(placed, k)
  {
    hide ContentCharacters;
    if k == 0 {
    } else {
      RenderedCharactersAre(placed, k - 1);
      assert placed[..k] == placed[..k - 1] + [placed[k - 1]];
      assert Shown(placed[..k]) == Shown(placed[..k - 1]) + [placed[k - 1].block];
      RenderedAppend(Shown(placed[..k - 1]), placed[k - 1].block);
    }
  }

  lemma RenderedAppend(blocks: seq<RenderedBlock>, last: RenderedBlock)
    ensures RenderedCharacters(blocks + [last]) == RenderedCharacters(blocks) + ContentCharacters(last.content)
  {
    assert (blocks + [last])[..|blocks|] == blocks;
  }

  /** Across all pages, in order, exactly the styled characters of the document are shown. */
  lemma PaginationKeepsCharacters(blocks: seq<Block>, images: seq<ImageLink>, box: PageBox,
                                  pages: seq<ReaderPage>, placed: seq<Placed>, cuts: seq<nat>)
    requires IsDocumentLayout(blocks, images, box, pages, placed, cuts)
    ensures RenderedCharacters(AllBlocks(pages)) == SourceCharacters(blocks, |blocks|)
  {
    PagesShowPieces(blocks, images, box, pages, placed, cuts, |pages|);
    assert pages[..|pages|] == pages && placed[..|placed|] == placed;
    RenderedCharactersAre(placed, |placed|);
    if placed != [] {
      CharactersUpTo(blocks, images, box, placed, |placed| - 1);
      TakeWhole(ContentCharacters(blocks[|blocks| - 1].content));
    }
  }

  // ---------- links and addresses on the pages ----------

  ghost function RawItems(items: seq<Fragments>): (s: seq<Styled>)
    ensures |s| == ItemsLength(items)
  {
    if items == [] then [] else RawItems(items[..|items| - 1]) + RawCharacters(items[|items| - 1])
  }

  ghost function RawContent(content: Content): (s: seq<Styled>)
    ensures |s| == VisibleLength(content)
  {
    match content
    case Heading(_, fragments) => RawCharacters(fragments)
    case Paragraph(fragments) => RawCharacters(fragments)
    case Quote(fragments) => RawCharacters(fragments)
    case List(_, items) => RawItems(items)
    case Image(_, _) => []
    case Break => []
  }

  ghost function RawSource(blocks: seq<Block>, b: nat): seq<Styled>
    requires b <= |blocks|
  {
    if b == 0 then [] else RawSource(blocks, b - 1) + RawContent(blocks[b - 1].content)
  }

  ghost function RawRendered(blocks: seq<RenderedBlock>): seq<Styled> {
    if blocks == [] then []
    else RawRendered(blocks[..|blocks| - 1]) + RawContent(blocks[|blocks| - 1].content)
  }

  lemma {:induction false} ItemsShowRaw(items: seq<Fragments>)
    ensures AllRender(ItemCharacters(items), RawItems(items))
  {
    if items == [] {
    } else {
      ItemsShowRaw(items[..|items| - 1]);
      StyledShowsRaw(items[|items| - 1]);
    }
  }

  lemma ContentShowsRaw(content: Content)
    ensures AllRender(ContentCharacters(content), RawContent(content))
  {
    match content
    case Heading(_, fragments) => StyledShowsRaw(fragments);
    case Paragraph(fragments) => StyledShowsRaw(fragments);
    case Quote(fragments) => StyledShowsRaw(fragments);
    case List(_, items) => ItemsShowRaw(items);
    case Image(_, _) =>
    case Break =>
  }

  lemma AllRenderAppend(a: seq<Styled>, x: seq<Styled>, b: seq<Styled>, y: seq<Styled>)
    requires AllRender(a, x) && AllRender(b, y)
    ensures AllRender(a + b, x + y)
  {
    hide Renders;
  }

  lemma {:induction false} SourceShowsRaw(blocks: seq<Block>, b: nat)
    requires b <= |blocks|
    ensures AllRender(SourceCharacters(blocks, b), RawSource(blocks, b))
  {
    hide AllRender, ContentCharacters, RawContent;
    if b == 0 {
      NothingShown();
    } else {
      SourceShowsRaw(blocks, b - 1);
      ContentShowsRaw(blocks[b - 1].content);
      AllRenderAppend(SourceCharacters(blocks, b - 1), RawSource(blocks, b - 1),
        ContentCharacters(blocks[b - 1].content), RawContent(blocks[b - 1].content));
    }
  }

  lemma NothingShown()
    ensures AllRender([], [])
  {
  }

  lemma {:induction false} RenderedShowsRaw(blocks: seq<RenderedBlock>)
    ensures AllRender(RenderedCharacters(blocks), RawRendered(blocks))
  {
    hide AllRender, ContentCharacters, RawContent;
    if blocks == [] {
      NothingShown();
    } else {
      var n := |blocks| - 1;
      RenderedShowsRaw(blocks[..n]);
      ContentShowsRaw(blocks[n].content);
      AllRenderAppend(RenderedCharacters(blocks[..n]), RawRendered(blocks[..n]),
        ContentCharacters(blocks[n].content), RawContent(blocks[n].content));
    }
  }

  /** Across all pages, character k carries the character and marks of character k of the document, and
      the same link, leaving empty ones aside; no matter where paragraphs were split. */
  lemma PaginationKeepsLinks(blocks: seq<Block>, images: seq<ImageLink>, box: PageBox,
                             pages: seq<ReaderPage>, placed: seq<Placed>, cuts: seq<nat>)
    requires IsDocumentLayout(blocks, images, box, pages, placed, cuts)
    ensures var shown, source := RawRendered(AllBlocks(pages)), RawSource(blocks, |blocks|);
      && |shown| == |source|
      && (forall k | 0 <= k < |source| ::
            shown[k].character == source[k].character && shown[k].marks == source[k].marks)
      && (forall k, h | 0 <= k < |source| && h != "" ::
            shown[k].href == Some(h) <==> source[k].href == Some(h))
  {
    PaginationKeepsCharacters(blocks, images, box, pages, placed, cuts);
    RenderedShowsRaw(AllBlocks(pages));
    SourceShowsRaw(blocks, |blocks|);
    hide RawRendered, RawSource, RenderedCharacters, SourceCharacters, AllBlocks;
    var shown, source := RawRendered(AllBlocks(pages)), RawSource(blocks, |blocks|);
    var styled := SourceCharacters(blocks, |blocks|);
    forall k | 0 <= k < |source| ensures Renders(styled[k], shown[k]) && Renders(styled[k], source[k]) {
    }
  }

  /** Every image on a page is an image of the document, shown with the address registered last under its
      id, unless there is none or it is empty; nothing else has an address. */
  lemma PagesShowAddresses(blocks: seq<Block>, images: seq<ImageLink>, box: PageBox, pages: seq<ReaderPage>,
                           placed: seq<Placed>, cuts: seq<nat>, p: nat, k: nat)
    requires IsDocumentLayout(blocks, images, box, pages, placed, cuts) && p < |pages|
    requires pages[p].TextPage? && k < |pages[p].blocks|
    ensures var shown := pages[p].blocks[k];
      forall url :: shown.imageUrl == Some(url) <==>
        && shown.content.Image? && url != ""
        && exists i :: IsLastLink(images, shown.content.imageId, i) && images[i].url == url
  {
    assert ShowsBlocks(pages[p + 1 - 1], placed, cuts[p + 1 - 1], cuts[p + 1]);
    var x := placed[cuts[p]..cuts[p + 1]][k];
    assert x == placed[cuts[p] + k] && pages[p].blocks[k] == x.block;
    hide IsDocumentLayout, ShowsBlocks, IsLastLink, ImageUrl;
    PieceAddress(blocks, images, box, placed, cuts[p] + k);
    forall url {
      ImageAddress(images, x.block.content, url);
    }
  }

  lemma PieceAddress(blocks: seq<Block>, images: seq<ImageLink>, box: PageBox, placed: seq<Placed>, k: nat)
    requires Covers(blocks, images, box, placed) && k < |placed|
    ensures placed[k].block.imageUrl == ImageUrl(images, placed[k].block.content)
  {
    assert IsPieceOf(placed[k], blocks[placed[k].src], images, box);
  }
}
