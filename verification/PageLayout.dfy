/** What a paginated section is: which piece of which block stands where, and how the pieces are
    grouped into pages. Costs are counted in hundredths of a character, so they are exact. */
module PageLayout {
  import opened Wrappers
  import opened Text
  import opened Publication

  datatype Box = Box(columns: nat, rows: nat)

  type PageBox = b: Box | b.columns >= 16 && b.rows >= 6 witness Box(16, 6)

  // ---------- costs ----------

  function Budget(box: PageBox): nat {
    100 * (box.columns * box.rows)
  }

  /** How many characters of a split paragraph go on one page. */
  function Capacity(box: PageBox): nat {
    var fitting := (Budget(box) - 65 * box.columns) / 100;
    if fitting > box.columns then fitting else box.columns
  }

  /** A block's contribution to offsets within its section; an image counts as one character. */
  function BlockLength(content: Content): nat {
    if content.Image? then 1 else VisibleLength(content)
  }

  function BlockCost(content: Content, box: PageBox): nat {
    match content
    case Heading(_, _) => 100 * BlockLength(content) + 250 * box.columns
    case Paragraph(_) => 100 * BlockLength(content) + 65 * box.columns
    case Quote(_) => 100 * BlockLength(content) + 120 * box.columns
    case List(_, items) => 100 * BlockLength(content) + (100 + 65 * |items|) * box.columns
    case Image(_, _) =>
      if 600 * box.columns > 48 * (box.columns * box.rows) then 600 * box.columns else 48 * (box.columns * box.rows)
    case Break => 150 * box.columns
  }

  lemma BoxFacts(box: PageBox)
    ensures Budget(box) >= 600 * box.columns
    ensures Capacity(box) >= 1 && 100 * Capacity(box) + 65 * box.columns <= Budget(box)
  {
    assert box.columns * box.rows == box.columns * 6 + box.columns * (box.rows - 6);
  }

  /** Only a paragraph is split, and only when it does not fit a page on its own. */
  predicate Oversized(content: Content, box: PageBox) {
    content.Paragraph? && BlockCost(content, box) > Budget(box)
  }

  /** Of the blocks that are not split only a heading, a quote or a list can exceed a page. */
  lemma OnlyTextExceeds(content: Content, box: PageBox)
    requires !Oversized(content, box) && BlockCost(content, box) > Budget(box)
    ensures content.Heading? || content.Quote? || content.List?
  {
    BoxFacts(box);
  }

  // ---------- pieces ----------

  /** The last image registered under an id supplies its address; an empty address is none. */
  function ImageUrl(images: seq<ImageLink>, content: Content): Option<string> {
    if !content.Image? || images == [] then None
    else
      var last := images[|images| - 1];
      if last.id == content.imageId then Link(Some(last.url)) else ImageUrl(images[..|images| - 1], content)
  }

  /** The address of an image is the one registered last under its id, unless that is empty. */
  lemma {:induction false} ImageAddress(images: seq<ImageLink>, content: Content, url: string)
    ensures ImageUrl(images, content) == Some(url) <==>
      && content.Image? && url != ""
      && exists i :: IsLastLink(images, content.imageId, i) && images[i].url == url
  {
    if !content.Image? || images == [] {
    } else {
      var n := |images| - 1;
      if images[n].id == content.imageId {
        assert IsLastLink(images, content.imageId, n);
      } else {
        ImageAddress(images[..n], content, url);
        forall i ensures IsLastLink(images, content.imageId, i) <==> IsLastLink(images[..n], content.imageId, i) {
          assert 0 <= i < n ==> images[..n][i] == images[i];
        }
      }
    }
  }

  ghost predicate IsLastLink(images: seq<ImageLink>, id: string, i: int) {
    && 0 <= i < |images| && images[i].id == id
    && forall j | i < j < |images| :: images[j].id != id
  }

  function Whole(block: Block, images: seq<ImageLink>): RenderedBlock {
    RenderedBlock(block.id, 0, VisibleLength(block.content), block.content, ImageUrl(images, block.content))
  }

  /** A rendered piece, the index of its source block in document order, what it weighs, and whether
      it is part of a split paragraph; such a part takes a page of its own, so it weighs more than any page. */
  datatype Placed = Placed(block: RenderedBlock, src: nat, weight: nat, split: bool)

  ghost predicate IsPieceOf(x: Placed, block: Block, images: seq<ImageLink>, box: PageBox) {
    if Oversized(block.content, box) then
      var n := VisibleLength(block.content);
      var start, end := x.block.sourceStartOffset, x.block.sourceEndOffset;
      && x.block.sourceBlockId == block.id
      && 0 <= start < end <= n
      && end - start <= Capacity(box) && (end < n ==> end - start == Capacity(box))
      && x.block.content.Paragraph?
      && Characters(x.block.content.fragments) == Characters(block.content.fragments)[start..end]
      && NoEmptyLink(x.block.content.fragments)
      && x.block.imageUrl == None
      && x.weight == Budget(box) + 1 && x.split
    else
      x.block == Whole(block, images) && x.weight == BlockCost(block.content, box) && !x.split
  }

  /** `b` comes right after `a`: further on in the same block, or at the start of the next. */
  predicate Follows(blocks: seq<Block>, a: Placed, b: Placed)
    requires a.src < |blocks|
  {
    var n := VisibleLength(blocks[a.src].content);
    if b.src == a.src then b.block.sourceStartOffset == a.block.sourceEndOffset < n
    else b.src == a.src + 1 && b.block.sourceStartOffset == 0 && a.block.sourceEndOffset == n
  }

  /** The pieces run through the blocks in order without a gap or an overlap. */
  ghost predicate Chain(blocks: seq<Block>, images: seq<ImageLink>, box: PageBox, placed: seq<Placed>) {
    && (forall k | 0 <= k < |placed| ::
          placed[k].src < |blocks| && IsPieceOf(placed[k], blocks[placed[k].src], images, box))
    && (placed != [] ==> placed[0].src == 0 && placed[0].block.sourceStartOffset == 0)
    && (forall k | 0 < k < |placed| :: Follows(blocks, placed[k - 1], placed[k]))
  }

  /** The pieces reach up to offset `offset` of block `b`. */
  ghost predicate AtTip(blocks: seq<Block>, placed: seq<Placed>, b: nat, offset: nat) {
    if placed == [] then b == 0 && offset == 0
    else
      var t := placed[|placed| - 1];
      if offset > 0 then t.src == b && t.block.sourceEndOffset == offset
      else b == t.src + 1 && t.src < |blocks| && t.block.sourceEndOffset == VisibleLength(blocks[t.src].content)
  }

  /** All of the blocks, in order, exactly once. */
  ghost predicate Covers(blocks: seq<Block>, images: seq<ImageLink>, box: PageBox, placed: seq<Placed>) {
    Chain(blocks, images, box, placed) && AtTip(blocks, placed, |blocks|, 0)
  }

  lemma ChainAppend(blocks: seq<Block>, images: seq<ImageLink>, box: PageBox, placed: seq<Placed>, b: nat,
                    offset: nat, x: Placed)
    requires Chain(blocks, images, box, placed) && AtTip(blocks, placed, b, offset)
    requires b < |blocks| && (offset > 0 ==> offset < VisibleLength(blocks[b].content))
    requires x.src == b && x.block.sourceStartOffset == offset && IsPieceOf(x, blocks[b], images, box)
    ensures Chain(blocks, images, box, placed + [x])
    ensures var end, n := x.block.sourceEndOffset, VisibleLength(blocks[b].content);
      0 <= end <= n && if end == n then AtTip(blocks, placed + [x], b + 1, 0) else AtTip(blocks, placed + [x], b, end)
  {
    hide IsPieceOf;
    var all := placed + [x];
    assert x.block.sourceStartOffset <= x.block.sourceEndOffset <= VisibleLength(blocks[b].content) by {
      PieceRange(x, blocks[b], images, box);
    }
    PieceRange(x, blocks[b], images, box);
    forall k | 0 < k < |all| ensures Follows(blocks, all[k - 1], all[k]) {
      if k < |placed| {
        assert Follows(blocks, placed[k - 1], placed[k]);
      }
    }
  }

  lemma PieceRange(x: Placed, block: Block, images: seq<ImageLink>, box: PageBox)
    requires IsPieceOf(x, block, images, box)
    ensures x.block.sourceBlockId == block.id
    ensures 0 <= x.block.sourceStartOffset <= x.block.sourceEndOffset <= VisibleLength(block.content)
    ensures x.block.sourceStartOffset == x.block.sourceEndOffset ==> VisibleLength(block.content) == 0
  {
  }

  // ---------- pages ----------

  function PlainText(content: Content): string {
    match content
    case Heading(_, fragments) => FragmentText(fragments)
    case Paragraph(fragments) => FragmentText(fragments)
    case Quote(fragments) => FragmentText(fragments)
    case List(ordered, items) => Join(ItemTexts(ordered, items), '\n')
    case Image(_, _) => ""
    case Break => ""
  }

  function FragmentText(fragments: Fragments): string {
    if fragments == [] then "" else FragmentText(fragments[..|fragments| - 1]) + fragments[|fragments| - 1].text
  }

  function ItemTexts(ordered: bool, items: seq<Fragments>): seq<string> {
    seq(|items|, i requires 0 <= i < |items| =>
      (if ordered then Digits(i + 1, 10) + "." else "\U{2022}") + " " + FragmentText(items[i]))
  }

  function Shown(placed: seq<Placed>): (blocks: seq<RenderedBlock>)
    ensures |blocks| == |placed| && forall k | 0 <= k < |placed| :: blocks[k] == placed[k].block
  {
    seq(|placed|, k requires 0 <= k < |placed| => placed[k].block)
  }

  function FirstHeading(blocks: seq<RenderedBlock>): Option<string> {
    if blocks == [] then None
    else if blocks[0].content.Heading? then Some(PlainText(blocks[0].content))
    else FirstHeading(blocks[1..])
  }

  function Paras(blocks: seq<RenderedBlock>): seq<string> {
    if blocks == [] then []
    else
      var text := PlainText(blocks[0].content);
      (if text == "" then [] else [text]) + Paras(blocks[1..])
  }

  function MakePage(chapter: int, at: int, blocks: seq<RenderedBlock>, pagesBefore: nat): ReaderPage {
    TextPage(chapter, at, FirstHeading(blocks), Paras(blocks), blocks, Digits(pagesBefore + 1, 10))
  }

  /** The total length of the blocks before block `b` of a section. */
  function OffsetBefore(blocks: seq<Block>, b: nat): nat
    requires b <= |blocks|
  {
    if b == 0 then 0 else OffsetBefore(blocks, b - 1) + BlockLength(blocks[b - 1].content)
  }

  /** What the first `k` pieces weigh together. */
  function Weight(placed: seq<Placed>, k: nat): nat
    requires k <= |placed|
  {
    if k == 0 then 0 else Weight(placed, k - 1) + placed[k - 1].weight
  }

  /** What the pieces from `a` to `b` weigh. */
  function Span(placed: seq<Placed>, a: nat, b: nat): int {
    if a <= b <= |placed| then Weight(placed, b) - Weight(placed, a) else 0
  }

  lemma SpanAppend(placed: seq<Placed>, x: Placed, a: nat)
    requires a <= |placed|
    ensures Span(placed + [x], a, |placed| + 1) == Span(placed, a, |placed|) + x.weight
    ensures forall b | a <= b <= |placed| :: Span(placed + [x], a, b) == Span(placed, a, b)
  {
    forall b | a <= b <= |placed| ensures Span(placed + [x], a, b) == Span(placed, a, b) {
      WeightPrefix(placed, x, a);
      WeightPrefix(placed, x, b);
    }
  }

  lemma {:induction false} SpanPositive(placed: seq<Placed>, a: nat, b: nat)
    ensures Span(placed, a, b) >= 0
    decreases b
  {
    if a < b <= |placed| {
      SpanPositive(placed, a, b - 1);
    }
  }

  lemma {:induction false} WeightPrefix(placed: seq<Placed>, x: Placed, k: nat)
    requires k <= |placed|
    ensures Weight(placed + [x], k) == Weight(placed, k)
  {
    if k == 0 {
    } else {
      WeightPrefix(placed, x, k - 1);
    }
  }

  /** Cut points, from zero, each after the one before. */
  predicate Cuts(cuts: seq<nat>, n: nat) {
    && cuts != [] && cuts[0] == 0 && cuts[|cuts| - 1] <= n
    && forall p | 0 < p < |cuts| :: cuts[p - 1] < cuts[p]
  }

  lemma {:induction false} CutsRise(cuts: seq<nat>, n: nat, p: nat, q: nat)
    requires Cuts(cuts, n) && p <= q < |cuts|
    ensures cuts[p] <= cuts[q] <= n && (p < q ==> cuts[p] < cuts[q])
    decreases |cuts| - p
  {
    if p < q {
      CutsRise(cuts, n, p + 1, q);
    } else if q < |cuts| - 1 {
      CutsRise(cuts, n, q + 1, |cuts| - 1);
    }
  }

  /** A page of two or more pieces keeps the budget. */
  predicate Fits(placed: seq<Placed>, budget: nat, a: nat, b: nat) {
    b - a >= 2 ==> Span(placed, a, b) <= budget
  }

  /** The piece after a page would not have fitted on it. */
  predicate Full(placed: seq<Placed>, budget: nat, a: nat, b: nat) {
    b < |placed| ==> Span(placed, a, b + 1) > budget
  }

  /** Every page keeps the budget, and none is closed early. */
  ghost predicate WellCut(placed: seq<Placed>, cuts: seq<nat>, budget: nat) {
    && Cuts(cuts, |placed|)
    && forall p | 0 < p < |cuts| ::
         cuts[p - 1] < cuts[p] <= |placed|
         && Fits(placed, budget, cuts[p - 1], cuts[p]) && Full(placed, budget, cuts[p - 1], cuts[p])
  }

  /** The page shows the pieces from `a` to `b`, and counts its place from its first character. */
  ghost predicate ShowsPieces(page: ReaderPage, chapter: int, pagesBefore: nat, blocks: seq<Block>,
                              placed: seq<Placed>, a: nat, b: nat) {
    && a < b <= |placed| && placed[a].src <= |blocks|
    && page == MakePage(chapter, PlaceOf(blocks, placed[a]), Shown(placed[a..b]), pagesBefore)
  }

  /** The pages show the pieces between the cuts. */
  ghost predicate ShowsCuts(pages: seq<ReaderPage>, chapter: int, before: nat, blocks: seq<Block>,
                            placed: seq<Placed>, cuts: seq<nat>) {
    && |cuts| == |pages| + 1
    && forall p | 0 < p < |cuts| ::
         ShowsPieces(pages[p - 1], chapter, before + p - 1, blocks, placed, cuts[p - 1], cuts[p])
  }

  function PlaceOf(blocks: seq<Block>, x: Placed): int
    requires x.src <= |blocks|
  {
    OffsetBefore(blocks, x.src) + x.block.sourceStartOffset
  }

  /** The pages of a section: every block once and in order, greedily cut. */
  ghost predicate IsSectionLayout(section: Section, images: seq<ImageLink>, box: PageBox, before: nat,
                                  pages: seq<ReaderPage>, placed: seq<Placed>, cuts: seq<nat>) {
    && Covers(section.blocks, images, box, placed)
    && WellCut(placed, cuts, Budget(box)) && cuts[|cuts| - 1] == |placed|
    && ShowsCuts(pages, section.ordinal, before, section.blocks, placed, cuts)
  }

  // ---------- the whole document ----------

  function Shift(placed: seq<Placed>, n: nat): (shifted: seq<Placed>)
    ensures |shifted| == |placed|
    ensures forall k | 0 <= k < |placed| :: shifted[k] == placed[k].(src := placed[k].src + n)
  {
    seq(|placed|, k requires 0 <= k < |placed| => placed[k].(src := placed[k].src + n))
  }

  /** The cuts of two layouts, the second starting where the first ends. */
  function JoinCuts(cuts: seq<nat>, cuts': seq<nat>, n: nat): (joined: seq<nat>)
    requires cuts != [] && cuts' != []
    ensures |joined| == |cuts| + |cuts'| - 1
    ensures forall k | 0 <= k < |cuts| :: joined[k] == cuts[k]
    ensures forall k | |cuts| <= k < |joined| :: joined[k] == cuts'[k - |cuts| + 1] + n
  {
    cuts + seq(|cuts'| - 1, k requires 0 <= k < |cuts'| - 1 => cuts'[k + 1] + n)
  }

  /** The pages of a document show all pieces of all of its blocks in document order. */
  ghost predicate IsDocumentLayout(blocks: seq<Block>, images: seq<ImageLink>, box: PageBox,
                                   pages: seq<ReaderPage>, placed: seq<Placed>, cuts: seq<nat>) {
    && Covers(blocks, images, box, placed)
    && Cuts(cuts, |placed|) && cuts[|cuts| - 1] == |placed| && |cuts| == |pages| + 1
    && forall p | 0 < p < |cuts| :: ShowsBlocks(pages[p - 1], placed, cuts[p - 1], cuts[p])
  }

  ghost predicate ShowsBlocks(page: ReaderPage, placed: seq<Placed>, a: nat, b: nat) {
    a < b <= |placed| && page.TextPage? && page.blocks == Shown(placed[a..b])
  }

  lemma CoversConcat(a: seq<Block>, b: seq<Block>, images: seq<ImageLink>, box: PageBox, p: seq<Placed>, q: seq<Placed>)
    requires Covers(a, images, box, p) && Covers(b, images, box, q)
    ensures Covers(a + b, images, box, p + Shift(q, |a|))
  {
    hide IsPieceOf, VisibleLength, Follows;
    var blocks, all := a + b, p + Shift(q, |a|);
    forall k | 0 <= k < |all|
      ensures all[k].src < |blocks| && IsPieceOf(all[k], blocks[all[k].src], images, box)
    {
      JoinedPiece(a, b, images, box, p, q, k);
    }
    forall k | 0 < k < |all| ensures Follows(blocks, all[k - 1], all[k]) {
      JoinedPiece(a, b, images, box, p, q, k - 1);
      JoinedFollows(a, b, images, box, p, q, k);
    }
    hide Chain, Shift;
    JoinedEnds(a, b, images, box, p, q);
  }

  lemma JoinedPiece(a: seq<Block>, b: seq<Block>, images: seq<ImageLink>, box: PageBox, p: seq<Placed>,
                    q: seq<Placed>, k: nat)
    requires Chain(a, images, box, p) && Chain(b, images, box, q) && k < |p| + |q|
    ensures var x := (p + Shift(q, |a|))[k]; x.src < |a + b| && IsPieceOf(x, (a + b)[x.src], images, box)
  {
    hide IsPieceOf, Follows;
    if k >= |p| {
      ShiftedPiece(q[k - |p|], |a|, b[q[k - |p|].src], images, box);
    }
  }

  lemma JoinedFollows(a: seq<Block>, b: seq<Block>, images: seq<ImageLink>, box: PageBox, p: seq<Placed>,
                      q: seq<Placed>, k: nat)
    requires Covers(a, images, box, p) && Covers(b, images, box, q) && 0 < k < |p| + |q|
    requires (p + Shift(q, |a|))[k - 1].src < |a + b|
    ensures Follows(a + b, (p + Shift(q, |a|))[k - 1], (p + Shift(q, |a|))[k])
  {
    hide IsPieceOf, VisibleLength, Follows;
    if k < |p| {
      FollowsShifted(a, a + b, p[k - 1], p[k], 0);
    } else if k == |p| {
      FollowsNext(a, b, p[k - 1], q[0]);
    } else {
      FollowsShifted(b, a + b, q[k - |p| - 1], q[k - |p|], |a|);
    }
  }

  /** Two coverings one after the other begin with the first block and end after the last. */
  lemma JoinedEnds(a: seq<Block>, b: seq<Block>, images: seq<ImageLink>, box: PageBox, p: seq<Placed>, q: seq<Placed>)
    requires Covers(a, images, box, p) && Covers(b, images, box, q)
    ensures var all := p + Shift(q, |a|);
      && (all != [] ==> all[0].src == 0 && all[0].block.sourceStartOffset == 0) && AtTip(a + b, all, |a + b|, 0)
  {
    hide IsPieceOf, VisibleLength, Follows;
  }

  lemma FollowsShifted(blocks: seq<Block>, all: seq<Block>, x: Placed, y: Placed, n: nat)
    requires x.src < |blocks| && Follows(blocks, x, y)
    requires x.src + n < |all| && all[x.src + n] == blocks[x.src]
    ensures Follows(all, x.(src := x.src + n), y.(src := y.src + n))
  {
  }

  lemma FollowsNext(a: seq<Block>, b: seq<Block>, x: Placed, y: Placed)
    requires x.src + 1 == |a| && x.block.sourceEndOffset == VisibleLength(a[x.src].content)
    requires y.src == 0 && y.block.sourceStartOffset == 0
    ensures Follows(a + b, x, y.(src := |a|))
  {
  }

  lemma ShiftedPiece(x: Placed, n: nat, block: Block, images: seq<ImageLink>, box: PageBox)
    ensures IsPieceOf(x.(src := x.src + n), block, images, box) <==> IsPieceOf(x, block, images, box)
  {
  }

  /** Appending a section's pages to those of the sections before. */
  lemma LayoutConcat(a: seq<Block>, section: Section, images: seq<ImageLink>, box: PageBox,
                     pages: seq<ReaderPage>, placed: seq<Placed>, cuts: seq<nat>,
                     pages': seq<ReaderPage>, placed': seq<Placed>, cuts': seq<nat>)
    requires IsDocumentLayout(a, images, box, pages, placed, cuts)
    requires IsSectionLayout(section, images, box, |pages|, pages', placed', cuts')
    ensures cuts != [] && cuts' != []
    ensures IsDocumentLayout(a + section.blocks, images, box, pages + pages', placed + Shift(placed', |a|),
              JoinCuts(cuts, cuts', |placed|))
  {
    hide Covers, MakePage, PlaceOf, Fits, Full, ShowsBlocks, ShowsPieces;
    CoversConcat(a, section.blocks, images, box, placed, placed');
    var all, points, m := placed + Shift(placed', |a|), JoinCuts(cuts, cuts', |placed|), |cuts| - 1;
    forall p | 0 < p < |points|
      ensures points[p - 1] < points[p] && ShowsBlocks((pages + pages')[p - 1], all, points[p - 1], points[p])
    {
      if p <= m {
        OldPageShows(pages[p - 1], placed, placed', |a|, cuts[p - 1], cuts[p]);
      } else {
        var q := p - m;
        assert points[p - 1] == cuts'[q - 1] + |placed| && points[p] == cuts'[q] + |placed|;
        NewPageShows(pages'[q - 1], section, |pages| + q - 1, placed, placed', |a|, cuts'[q - 1], cuts'[q]);
      }
    }
  }

  lemma OldPageShows(page: ReaderPage, placed: seq<Placed>, placed': seq<Placed>, n: nat, a: nat, b: nat)
    requires ShowsBlocks(page, placed, a, b)
    ensures ShowsBlocks(page, placed + Shift(placed', n), a, b)
  {
    assert (placed + Shift(placed', n))[a..b] == placed[a..b];
  }

  lemma NewPageShows(page: ReaderPage, section: Section, before: nat, placed: seq<Placed>, placed': seq<Placed>,
                     n: nat, a: nat, b: nat)
    requires ShowsPieces(page, section.ordinal, before, section.blocks, placed', a, b)
    ensures ShowsBlocks(page, placed + Shift(placed', n), a + |placed|, b + |placed|)
  {
    ShownShift(placed, placed', n, a, b);
  }

  lemma ShownShift(placed: seq<Placed>, placed': seq<Placed>, n: nat, a: nat, b: nat)
    requires a <= b <= |placed'|
    ensures Shown((placed + Shift(placed', n))[a + |placed|..b + |placed|]) == Shown(placed'[a..b])
  {
    var all := placed + Shift(placed', n);
    forall k | 0 <= k < b - a
      ensures Shown(all[a + |placed|..b + |placed|])[k] == Shown(placed'[a..b])[k]
    {
      assert all[a + |placed|..b + |placed|][k] == all[a + |placed| + k] == Shift(placed', n)[a + k];
      assert placed'[a..b][k] == placed'[a + k];
    }
  }
}
