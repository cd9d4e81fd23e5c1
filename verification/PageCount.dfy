/** How many pages a section takes, over-budget paragraphs included, in terms of what its blocks cost. */
module PageCount {
  import opened Wrappers
  import opened Text
  import opened Publication
  import opened PageLayout
  import opened PageTheorems
  import opened LocationTheorems

  // ---------- the pieces of a block ----------

  function CeilingOf(n: nat, d: nat): nat
    requires d >= 1
  {
    (n + d - 1) / d
  }

  lemma CeilingIs(n: nat, d: nat, j: nat)
    requires d >= 1 && d * j < n <= d * j + d
    ensures CeilingOf(n, d) == j + 1
  {
    var r := n + d - 1 - (j + 1) * d;
    DivMod(j + 1, r, d);
  }

  /** An over-budget paragraph is cut into full chunks and a rest, any other block not at all. */
  function PieceCount(content: Content, box: PageBox): nat {
    BoxFacts(box);
    if Oversized(content, box) then CeilingOf(VisibleLength(content), Capacity(box)) else 1
  }

  function PiecesBefore(blocks: seq<Block>, box: PageBox, b: nat): nat
    requires b <= |blocks|
  {
    if b == 0 then 0 else PiecesBefore(blocks, box, b - 1) + PieceCount(blocks[b - 1].content, box)
  }

  lemma PieceCountPositive(content: Content, box: PageBox)
    ensures PieceCount(content, box) >= 1
  {
    BoxFacts(box);
    if Oversized(content, box) {
      var n, cap := VisibleLength(content), Capacity(box);
      assert n >= 1;
      assert n + cap - 1 >= cap;
      DivideAtLeast(n + cap - 1, cap);
    }
  }

  lemma DivideAtLeast(n: nat, d: nat)
    requires 1 <= d <= n
    ensures n / d >= 1
  {
  }

  lemma {:induction false} PiecesRise(blocks: seq<Block>, box: PageBox, a: nat, b: nat)
    requires a <= b <= |blocks|
    ensures PiecesBefore(blocks, box, a) + (b - a) <= PiecesBefore(blocks, box, b)
    decreases b
  {
    if a >= b {
    } else {
      PieceCountPositive(blocks[b - 1].content, box);
      PiecesRise(blocks, box, a, b - 1);
    }
  }

  /** Where the chunk after `j` full ones starts. */
  function ChunkStart(box: PageBox, j: nat): nat {
    Capacity(box) * j
  }

  /** The chunk of a paragraph that starts after `j` full ones is its last or is full. */
  lemma ChunkCount(content: Content, box: PageBox, start: nat, end: nat, j: nat)
    requires Oversized(content, box) && start == ChunkStart(box, j)
    requires start < end <= VisibleLength(content) && end - start <= Capacity(box)
    requires end < VisibleLength(content) ==> end - start == Capacity(box)
    ensures j < PieceCount(content, box)
    ensures end == VisibleLength(content) ==> PieceCount(content, box) == j + 1
    ensures end < VisibleLength(content) ==> end == ChunkStart(box, j + 1) && j + 1 < PieceCount(content, box)
  {
    BoxFacts(box);
    var n, cap := VisibleLength(content), Capacity(box);
    assert cap * (j + 1) == cap * j + cap;
    if end == n {
      CeilingIs(n, cap, j);
    } else {
      CeilingAbove(n, cap, j + 1);
    }
  }

  lemma CeilingAbove(n: nat, d: nat, j: nat)
    requires d >= 1 && d * j < n
    ensures CeilingOf(n, d) > j
  {
    var q := CeilingOf(n, d);
    assert q * d + d > n + d - 1 && j * d == d * j;
    if q <= j {
      TimesMonotone(q, j, d);
      assert false;
    }
  }

  /** Where a piece stands among all pieces tells which part of which block it is. */
  lemma {:induction false} PieceIndex(blocks: seq<Block>, images: seq<ImageLink>, box: PageBox, placed: seq<Placed>,
                                      k: nat)
    requires Chain(blocks, images, box, placed) && k < |placed|
    ensures var x := placed[k];
      && x.src < |blocks| && PiecesBefore(blocks, box, x.src) <= k < PiecesBefore(blocks, box, x.src + 1)
      && (x.split <==> Oversized(blocks[x.src].content, box))
      && (if x.split then x.block.sourceStartOffset == ChunkStart(box, k - PiecesBefore(blocks, box, x.src))
          else k == PiecesBefore(blocks, box, x.src))
      && (k + 1 == PiecesBefore(blocks, box, x.src + 1) <==>
            x.block.sourceEndOffset == VisibleLength(blocks[x.src].content))
  {
    var x := placed[k];
    if k > 0 {
      PieceIndex(blocks, images, box, placed, k - 1);
    }
    hide Chain, Capacity, VisibleLength, ChunkStart;
    ChainFacts(blocks, images, box, placed, k);
    if k > 0 && placed[k - 1].src == x.src {
      SamePiece(blocks, images, box, placed[k - 1], x, k);
    } else {
      assert PiecesBefore(blocks, box, x.src) == k;
      FirstPiece(blocks, images, box, x, k);
    }
  }

  lemma ChainFacts(blocks: seq<Block>, images: seq<ImageLink>, box: PageBox, placed: seq<Placed>, k: nat)
    requires Chain(blocks, images, box, placed) && k < |placed|
    ensures placed[k].src < |blocks| && IsPieceOf(placed[k], blocks[placed[k].src], images, box)
    ensures k == 0 ==> placed[k].src == 0 && placed[k].block.sourceStartOffset == 0
    ensures k > 0 ==> placed[k - 1].src < |blocks| && Follows(blocks, placed[k - 1], placed[k])
    ensures k > 0 ==> IsPieceOf(placed[k - 1], blocks[placed[k - 1].src], images, box)
  {
  }

  lemma PieceBounds(x: Placed, block: Block, images: seq<ImageLink>, box: PageBox)
    requires IsPieceOf(x, block, images, box)
    ensures x.split <==> Oversized(block.content, box)
    ensures var start, end, n := x.block.sourceStartOffset, x.block.sourceEndOffset, VisibleLength(block.content);
      if x.split
      then 0 <= start < end <= n && end - start <= Capacity(box) && (end < n ==> end - start == Capacity(box))
      else start == 0 && end == n
  {
  }

  lemma FirstPiece(blocks: seq<Block>, images: seq<ImageLink>, box: PageBox, x: Placed, k: nat)
    requires x.src < |blocks| && IsPieceOf(x, blocks[x.src], images, box) && x.block.sourceStartOffset == 0
    requires PiecesBefore(blocks, box, x.src) == k
    ensures k < PiecesBefore(blocks, box, x.src + 1)
    ensures x.split <==> Oversized(blocks[x.src].content, box)
    ensures ChunkStart(box, k - PiecesBefore(blocks, box, x.src)) == 0
    ensures k + 1 == PiecesBefore(blocks, box, x.src + 1) <==>
      x.block.sourceEndOffset == VisibleLength(blocks[x.src].content)
  {
    PieceBounds(x, blocks[x.src], images, box);
    hide IsPieceOf, Oversized, Capacity, VisibleLength;
    if x.split {
      ChunkCount(blocks[x.src].content, box, 0, x.block.sourceEndOffset, 0);
    }
  }

  lemma SamePiece(blocks: seq<Block>, images: seq<ImageLink>, box: PageBox, p: Placed, x: Placed, k: nat)
    requires k > 0 && x.src == p.src < |blocks| && PiecesBefore(blocks, box, p.src) <= k - 1
    requires IsPieceOf(p, blocks[p.src], images, box) && IsPieceOf(x, blocks[x.src], images, box)
    requires Follows(blocks, p, x)
    requires p.split ==> p.block.sourceStartOffset == ChunkStart(box, k - 1 - PiecesBefore(blocks, box, p.src))
    ensures k < PiecesBefore(blocks, box, x.src + 1)
    ensures x.split && Oversized(blocks[x.src].content, box)
    ensures x.block.sourceStartOffset == ChunkStart(box, k - PiecesBefore(blocks, box, x.src))
    ensures k + 1 == PiecesBefore(blocks, box, x.src + 1) <==>
      x.block.sourceEndOffset == VisibleLength(blocks[x.src].content)
  {
    PieceBounds(p, blocks[p.src], images, box);
    PieceBounds(x, blocks[x.src], images, box);
    hide IsPieceOf, Oversized, Capacity, VisibleLength, PieceCount, ChunkStart;
    var content, j := blocks[x.src].content, k - PiecesBefore(blocks, box, x.src);
    ChunkCount(content, box, p.block.sourceStartOffset, p.block.sourceEndOffset, j - 1);
    ChunkCount(content, box, x.block.sourceStartOffset, x.block.sourceEndOffset, j);
  }

  lemma PiecesTotal(blocks: seq<Block>, images: seq<ImageLink>, box: PageBox, placed: seq<Placed>)
    requires Covers(blocks, images, box, placed)
    ensures |placed| == PiecesBefore(blocks, box, |blocks|)
  {
    if placed != [] {
      PieceIndex(blocks, images, box, placed, |placed| - 1);
    }
  }

  lemma CoversChain(blocks: seq<Block>, images: seq<ImageLink>, box: PageBox, placed: seq<Placed>)
    requires Covers(blocks, images, box, placed)
    ensures Chain(blocks, images, box, placed)
  {
  }

  /** The first piece of a block comes after all pieces of the blocks before. */
  lemma PieceAt(blocks: seq<Block>, images: seq<ImageLink>, box: PageBox, placed: seq<Placed>, b: nat)
    requires Covers(blocks, images, box, placed) && b < |blocks|
    ensures PiecesBefore(blocks, box, b) < |placed| && placed[PiecesBefore(blocks, box, b)].src == b
  {
    hide Covers, BlockCost, Oversized, PieceCount, Capacity, Budget, VisibleLength;
    var k := BlockStart(blocks, images, box, placed, b);
    CoversChain(blocks, images, box, placed);
    PieceIndex(blocks, images, box, placed, k);
    BoxFacts(box);
    var j := k - PiecesBefore(blocks, box, b);
    assert j * Capacity(box) == Capacity(box) * j;
    if j > 0 {
      TimesMonotone(1, j, Capacity(box));
    }
  }

  // ---------- arrangements of a section ----------

  /** A contiguous grouping of the first `n` blocks: every group is a single block or keeps the budget. */
  ghost predicate IsArrangement(blocks: seq<Block>, box: PageBox, others: seq<nat>, n: nat) {
    && n <= |blocks| && Cuts(others, n) && others[|others| - 1] == n
    && forall p | 0 < p < |others| :: IsGroup(blocks, box, others[p - 1], others[p])
  }

  ghost predicate IsGroup(blocks: seq<Block>, box: PageBox, a: nat, b: nat) {
    a < b <= |blocks| && (b - a >= 2 ==> GroupCost(blocks, box, a, b) <= Budget(box))
  }

  /** What a group takes: an over-budget paragraph as many pages as it has chunks, any other group one. */
  function GroupPages(blocks: seq<Block>, box: PageBox, a: nat, b: nat): nat {
    if b == a + 1 <= |blocks| then PieceCount(blocks[a].content, box) else 1
  }

  /** What the first `k` groups take. */
  function ArrangementPages(blocks: seq<Block>, box: PageBox, others: seq<nat>, k: nat): nat
    requires k < |others|
  {
    if k == 0 then 0
    else ArrangementPages(blocks, box, others, k - 1) + GroupPages(blocks, box, others[k - 1], others[k])
  }

  /** A group of several blocks that keeps the budget contains no over-budget paragraph. */
  lemma {:induction false} CostContains(blocks: seq<Block>, box: PageBox, a: nat, b: nat, i: nat)
    requires a <= i < b <= |blocks|
    ensures BlockCost(blocks[i].content, box) <= GroupCost(blocks, box, a, b)
    decreases b
  {
    if i >= b - 1 {
    } else {
      CostContains(blocks, box, a, b - 1, i);
    }
  }

  ghost predicate Unsplit(blocks: seq<Block>, box: PageBox, a: nat, b: nat)
    requires b <= |blocks|
  {
    forall i | a <= i < b :: !Oversized(blocks[i].content, box)
  }

  /** The pieces of blocks that are not split weigh what the blocks cost. */
  lemma {:induction false} GroupSpan(blocks: seq<Block>, images: seq<ImageLink>, box: PageBox, placed: seq<Placed>,
                                     a: nat, b: nat)
    requires Covers(blocks, images, box, placed) && a <= b <= |blocks| && Unsplit(blocks, box, a, b)
    ensures PiecesBefore(blocks, box, a) <= PiecesBefore(blocks, box, b) <= |placed|
    ensures Span(placed, PiecesBefore(blocks, box, a), PiecesBefore(blocks, box, b)) == GroupCost(blocks, box, a, b)
    decreases b
  {
    hide Covers, BlockCost, Oversized, PieceCount;
    PiecesRise(blocks, box, a, b);
    PiecesRise(blocks, box, b, |blocks|);
    PiecesTotal(blocks, images, box, placed);
    if a >= b {
    } else {
      GroupSpan(blocks, images, box, placed, a, b - 1);
      WholePiece(blocks, images, box, placed, b - 1);
    }
  }

  /** A block that is not split has one piece, which weighs what the block costs. */
  lemma WholePiece(blocks: seq<Block>, images: seq<ImageLink>, box: PageBox, placed: seq<Placed>, b: nat)
    requires Covers(blocks, images, box, placed) && b < |blocks| && !Oversized(blocks[b].content, box)
    ensures PiecesBefore(blocks, box, b + 1) == PiecesBefore(blocks, box, b) + 1 <= |placed|
    ensures placed[PiecesBefore(blocks, box, b)].weight == BlockCost(blocks[b].content, box)
  {
    hide BlockCost, Oversized, Follows;
    PieceAt(blocks, images, box, placed, b);
    CoversChain(blocks, images, box, placed);
    ChainFacts(blocks, images, box, placed, PiecesBefore(blocks, box, b));
  }

  lemma {:induction false} CutsAdvance(cuts: seq<nat>, n: nat, p: nat, q: nat)
    requires Cuts(cuts, n) && p <= q < |cuts|
    ensures cuts[p] + (q - p) <= cuts[q]
    decreases q
  {
    if p >= q {
    } else {
      CutsAdvance(cuts, n, p, q - 1);
    }
  }

  /** On as many pages as the first groups take, the filler has placed at least their blocks. */
  lemma {:induction false} FillerStaysAhead(blocks: seq<Block>, images: seq<ImageLink>, box: PageBox,
                                            placed: seq<Placed>,
                                            cuts: seq<nat>, others: seq<nat>, k: nat)
    requires Covers(blocks, images, box, placed) && WellCut(placed, cuts, Budget(box))
    requires IsArrangement(blocks, box, others, |blocks|) && k < |others|
    ensures others[k] <= |blocks|
    ensures var n := ArrangementPages(blocks, box, others, k);
      n < |cuts| ==> cuts[n] >= PiecesBefore(blocks, box, others[k])
  {
    hide Covers, BlockCost, Oversized, PieceCount, Fits, Budget;
    CutsRise(others, |blocks|, k, |others| - 1);
    if k == 0 {
    } else {
      FillerStaysAhead(blocks, images, box, placed, cuts, others, k - 1);
      var a, b := others[k - 1], others[k];
      assert IsGroup(blocks, box, a, b);
      var m, n := ArrangementPages(blocks, box, others, k - 1), ArrangementPages(blocks, box, others, k);
      if n < |cuts| {
        if b == a + 1 {
          CutsAdvance(cuts, |placed|, m, n);
        } else {
          GroupFits(blocks, images, box, placed, cuts, a, b, m);
        }
      }
    }
  }

  /** A filler that has placed the blocks before a group has placed the group one page later. */
  lemma GroupFits(blocks: seq<Block>, images: seq<ImageLink>, box: PageBox, placed: seq<Placed>, cuts: seq<nat>,
                  a: nat, b: nat, m: nat)
    requires Covers(blocks, images, box, placed) && WellCut(placed, cuts, Budget(box)) && m + 1 < |cuts|
    requires a < b <= |blocks| && GroupCost(blocks, box, a, b) <= Budget(box)
    requires cuts[m] >= PiecesBefore(blocks, box, a)
    ensures cuts[m + 1] >= PiecesBefore(blocks, box, b)
  {
    forall i | a <= i < b ensures !Oversized(blocks[i].content, box) {
      CostContains(blocks, box, a, b, i);
    }
    GroupSpan(blocks, images, box, placed, a, b);
    hide *;
    FilledAtLeast(placed, cuts, Budget(box), PiecesBefore(blocks, box, a), PiecesBefore(blocks, box, b), m);
  }

  /** A page that begins at or after some pieces that fit a page together ends at or after them. */
  lemma FilledAtLeast(placed: seq<Placed>, cuts: seq<nat>, budget: nat, a: nat, b: nat, m: nat)
    requires WellCut(placed, cuts, budget) && m + 1 < |cuts|
    requires a <= b <= |placed| && Span(placed, a, b) <= budget && cuts[m] >= a
    ensures cuts[m + 1] >= b
  {
    assert Full(placed, budget, cuts[m + 1 - 1], cuts[m + 1]);
    if cuts[m + 1] < b {
      WeightMonotone(placed, a, cuts[m]);
      WeightMonotone(placed, cuts[m + 1] + 1, b);
    }
  }

  // ---------- the pages are an arrangement ----------

  lemma ArrangementAppend(blocks: seq<Block>, box: PageBox, others: seq<nat>, n: nat, b: nat)
    requires IsArrangement(blocks, box, others, n) && IsGroup(blocks, box, n, b)
    ensures IsArrangement(blocks, box, others + [b], b)
    ensures ArrangementPages(blocks, box, others + [b], |others|)
         == ArrangementPages(blocks, box, others, |others| - 1) + GroupPages(blocks, box, n, b)
  {
    hide IsGroup, GroupPages;
    GroupRises(blocks, box, n, b);
    PagesPrefix(blocks, box, others, b, |others| - 1);
    assert (others + [b])[|others| - 1] == n;
    forall p | 0 < p <= |others| ensures IsGroup(blocks, box, (others + [b])[p - 1], (others + [b])[p]) {
      if p < |others| {
        assert IsGroup(blocks, box, others[p - 1], others[p]);
      }
    }
  }

  lemma GroupRises(blocks: seq<Block>, box: PageBox, a: nat, b: nat)
    requires IsGroup(blocks, box, a, b)
    ensures a < b <= |blocks|
  {
  }

  lemma {:induction false} PagesPrefix(blocks: seq<Block>, box: PageBox, others: seq<nat>, b: nat, k: nat)
    requires k < |others|
    ensures ArrangementPages(blocks, box, others + [b], k) == ArrangementPages(blocks, box, others, k)
  {
    if k == 0 {
    } else {
      PagesPrefix(blocks, box, others, b, k - 1);
    }
  }

  /** A page with a chunk shows nothing else. */
  lemma ChunkPage(placed: seq<Placed>, cuts: seq<nat>, budget: nat, p: nat, k: nat)
    requires WellCut(placed, cuts, budget) && 0 < p < |cuts| && cuts[p - 1] <= k < cuts[p]
    requires placed[k].weight > budget
    ensures cuts[p] == cuts[p - 1] + 1
  {
    assert Fits(placed, budget, cuts[p - 1], cuts[p]);
    CutsRise(cuts, |placed|, p, |cuts| - 1);
    WeightMonotone(placed, cuts[p - 1], k);
    WeightMonotone(placed, k + 1, cuts[p]);
  }

  /** The chunks before a cut have a page each. */
  lemma {:induction false} ChunkPages(placed: seq<Placed>, cuts: seq<nat>, budget: nat, p: nat, j: nat)
    requires WellCut(placed, cuts, budget) && p < |cuts| && j <= cuts[p] <= |placed|
    requires forall k | cuts[p] - j <= k < cuts[p] :: placed[k].weight > budget
    ensures j <= p && cuts[p - j] == cuts[p] - j
    decreases j
  {
    if j == 0 {
    } else {
      ChunkPage(placed, cuts, budget, p, cuts[p] - 1);
      ChunkPages(placed, cuts, budget, p - 1, j - 1);
    }
  }

  /** Pages that end with a block arrange the blocks up to it. */
  lemma {:induction false} PagesArrange(blocks: seq<Block>, images: seq<ImageLink>, box: PageBox, placed: seq<Placed>,
                                        cuts: seq<nat>, p: nat, b: nat) returns (others: seq<nat>)
    requires Covers(blocks, images, box, placed) && WellCut(placed, cuts, Budget(box))
    requires p < |cuts| && b <= |blocks| && cuts[p] == PiecesBefore(blocks, box, b)
    ensures IsArrangement(blocks, box, others, b) && ArrangementPages(blocks, box, others, |others| - 1) == p
    decreases p
  {
    hide Covers, BlockCost, Oversized, PieceCount, Fits, Full, Budget, IsGroup, GroupPages, GroupCost;
    PiecesRise(blocks, box, 0, b);
    if p == 0 {
      others := [0];
    } else {
      var q, a := LastGroup(blocks, images, box, placed, cuts, p, b);
      others := PagesArrange(blocks, images, box, placed, cuts, q, a);
      ArrangementAppend(blocks, box, others, a, b);
      others := others + [b];
    }
  }

  /** The pages that end with a block are those of one group after pages that end with an earlier one. */
  lemma LastGroup(blocks: seq<Block>, images: seq<ImageLink>, box: PageBox, placed: seq<Placed>,
                  cuts: seq<nat>, p: nat, b: nat) returns (q: nat, a: nat)
    requires Covers(blocks, images, box, placed) && WellCut(placed, cuts, Budget(box))
    requires 0 < p < |cuts| && b <= |blocks| && cuts[p] == PiecesBefore(blocks, box, b)
    ensures q < p && a < b && cuts[q] == PiecesBefore(blocks, box, a)
    ensures IsGroup(blocks, box, a, b) && q + GroupPages(blocks, box, a, b) == p
  {
    var x := placed[cuts[p - 1]];
    CutsRise(cuts, |placed|, p - 1, p);
    PieceIndex(blocks, images, box, placed, cuts[p - 1]);
    if x.split {
      ChunkPage(placed, cuts, Budget(box), p, cuts[p - 1]);
      q, a := LastParagraph(blocks, images, box, placed, cuts, p, b);
    } else {
      q, a := p - 1, x.src;
      LastPage(blocks, images, box, placed, cuts, p, a, b);
    }
  }

  lemma SplitWeight(blocks: seq<Block>, images: seq<ImageLink>, box: PageBox, placed: seq<Placed>, k: nat)
    requires Chain(blocks, images, box, placed) && k < |placed|
    ensures placed[k].split ==> placed[k].weight == Budget(box) + 1
  {
  }

  lemma LastParagraph(blocks: seq<Block>, images: seq<ImageLink>, box: PageBox, placed: seq<Placed>,
                      cuts: seq<nat>, p: nat, b: nat) returns (q: nat, a: nat)
    requires Covers(blocks, images, box, placed) && WellCut(placed, cuts, Budget(box))
    requires 0 < p < |cuts| && b <= |blocks| && cuts[p] == PiecesBefore(blocks, box, b)
    requires cuts[p] == cuts[p - 1] + 1 && placed[cuts[p - 1]].split
    ensures q < p && a < b && cuts[q] == PiecesBefore(blocks, box, a)
    ensures IsGroup(blocks, box, a, b) && q + GroupPages(blocks, box, a, b) == p
  {
    hide BlockCost, Oversized, Fits, Full, IsPieceOf, Follows;
    PiecesRise(blocks, box, 0, b);
    a := b - 1;
    PieceCountPositive(blocks[a].content, box);
    PieceIndex(blocks, images, box, placed, cuts[p - 1]);
    InBlock(blocks, box, cuts[p - 1], placed[cuts[p - 1]].src, a);
    var j := PieceCount(blocks[a].content, box);
    forall k | cuts[p] - j <= k < cuts[p] ensures placed[k].weight > Budget(box) {
      PieceIndex(blocks, images, box, placed, k);
      InBlock(blocks, box, k, placed[k].src, a);
      SplitWeight(blocks, images, box, placed, k);
    }
    ChunkPages(placed, cuts, Budget(box), p, j);
    q := p - j;
  }

  /** A piece belongs to one block only. */
  lemma InBlock(blocks: seq<Block>, box: PageBox, k: nat, a: nat, b: nat)
    requires a < |blocks| && b < |blocks|
    requires PiecesBefore(blocks, box, a) <= k < PiecesBefore(blocks, box, a + 1)
    requires PiecesBefore(blocks, box, b) <= k < PiecesBefore(blocks, box, b + 1)
    ensures a == b
  {
    if a < b {
      PiecesRise(blocks, box, a + 1, b);
    } else if b < a {
      PiecesRise(blocks, box, b + 1, a);
    }
  }

  lemma LastPage(blocks: seq<Block>, images: seq<ImageLink>, box: PageBox, placed: seq<Placed>,
                 cuts: seq<nat>, p: nat, a: nat, b: nat)
    requires Covers(blocks, images, box, placed) && WellCut(placed, cuts, Budget(box))
    requires 0 < p < |cuts| && b <= |blocks| && cuts[p] == PiecesBefore(blocks, box, b)
    requires cuts[p - 1] < |placed| && placed[cuts[p - 1]].src == a && !placed[cuts[p - 1]].split
    ensures a < b && cuts[p - 1] == PiecesBefore(blocks, box, a)
    ensures IsGroup(blocks, box, a, b) && GroupPages(blocks, box, a, b) == 1
  {
    hide BlockCost, Full, IsPieceOf, Follows, VisibleLength, Capacity;
    PieceIndex(blocks, images, box, placed, cuts[p - 1]);
    assert PieceCount(blocks[a].content, box) == 1;
    CutsRise(cuts, |placed|, p - 1, p);
    if b <= a {
      PiecesRise(blocks, box, b, a);
    }
    forall i | a <= i < b ensures !Oversized(blocks[i].content, box) {
      var k := PiecesBefore(blocks, box, i);
      PieceAt(blocks, images, box, placed, i);
      PieceIndex(blocks, images, box, placed, k);
      PiecesRise(blocks, box, a, i);
      PiecesRise(blocks, box, i, b);
      if placed[k].split {
        SplitWeight(blocks, images, box, placed, k);
        ChunkPage(placed, cuts, Budget(box), p, k);
      }
    }
    GroupSpan(blocks, images, box, placed, a, b);
    PiecesRise(blocks, box, a, b);
    assert Fits(placed, Budget(box), cuts[p - 1], cuts[p]);
  }

  // ---------- the results ----------

  /** The pages of a section are as many as an arrangement of its blocks takes, and no arrangement takes
      fewer: a group is a single block or costs at most the budget, and takes one page, except that an
      over-budget paragraph takes its length divided by the capacity, rounded up. */
  lemma FewestPages(section: Section, images: seq<ImageLink>, box: PageBox, before: nat,
                    pages: seq<ReaderPage>, placed: seq<Placed>, cuts: seq<nat>) returns (fewest: seq<nat>)
    requires IsSectionLayout(section, images, box, before, pages, placed, cuts)
    ensures IsArrangement(section.blocks, box, fewest, |section.blocks|)
    ensures |pages| == ArrangementPages(section.blocks, box, fewest, |fewest| - 1)
    ensures forall others | IsArrangement(section.blocks, box, others, |section.blocks|) ::
      |pages| <= ArrangementPages(section.blocks, box, others, |others| - 1)
  {
    hide Covers, WellCut, BlockCost, Oversized, PieceCount, IsGroup, GroupPages;
    PiecesTotal(section.blocks, images, box, placed);
    fewest := PagesArrange(section.blocks, images, box, placed, cuts, |cuts| - 1, |section.blocks|);
    forall others | IsArrangement(section.blocks, box, others, |section.blocks|)
      ensures |pages| <= ArrangementPages(section.blocks, box, others, |others| - 1)
    {
      FillerStaysAhead(section.blocks, images, box, placed, cuts, others, |others| - 1);
      var n := ArrangementPages(section.blocks, box, others, |others| - 1);
      if n < |cuts| - 1 {
        LaterCut(placed, cuts, Budget(box), n);
      }
    }
  }

  lemma LaterCut(placed: seq<Placed>, cuts: seq<nat>, budget: nat, n: nat)
    requires WellCut(placed, cuts, budget) && n < |cuts| - 1
    ensures cuts[n] < |placed|
  {
    CutsRise(cuts, |placed|, n, |cuts| - 1);
  }

  /** A part of a paragraph fits a page exactly when it is no longer than the capacity. */
  lemma ChunkFits(fragments: Fragments, box: PageBox)
    ensures BlockCost(Paragraph(fragments), box) <= Budget(box) <==> FragmentLength(fragments) <= Capacity(box)
  {
    BoxFacts(box);
  }

  function TotalLength(chunks: seq<Fragments>): nat {
    if chunks == [] then 0 else TotalLength(chunks[..|chunks| - 1]) + FragmentLength(chunks[|chunks| - 1])
  }

  lemma {:induction false} TotalBounded(chunks: seq<Fragments>, box: PageBox)
    requires forall i | 0 <= i < |chunks| :: BlockCost(Paragraph(chunks[i]), box) <= Budget(box)
    ensures TotalLength(chunks) <= Capacity(box) * |chunks|
  {
    if chunks == [] {
    } else {
      ChunkFits(chunks[|chunks| - 1], box);
      TotalBounded(chunks[..|chunks| - 1], box);
      assert Capacity(box) * |chunks| == Capacity(box) * (|chunks| - 1) + Capacity(box);
    }
  }

  /** An over-budget paragraph cannot be shown in fewer parts that each fit a page. */
  lemma FewestChunks(content: Content, box: PageBox, chunks: seq<Fragments>)
    requires Oversized(content, box) && TotalLength(chunks) == VisibleLength(content)
    requires forall i | 0 <= i < |chunks| :: BlockCost(Paragraph(chunks[i]), box) <= Budget(box)
    ensures PieceCount(content, box) <= |chunks|
  {
    TotalBounded(chunks, box);
    BoxFacts(box);
    if |chunks| < PieceCount(content, box) {
      CeilingBelow(VisibleLength(content), Capacity(box), |chunks|);
    }
  }

  lemma CeilingBelow(n: nat, d: nat, j: nat)
    requires d >= 1 && n <= d * j
    ensures CeilingOf(n, d) <= j
  {
    var q := CeilingOf(n, d);
    assert q * d <= n + d - 1 && j * d == d * j;
    if q > j {
      TimesMonotone(j, q, d);
      assert false;
    }
  }

  /** The last chunk of a paragraph never shares its page, even where it could: a rest of one character
      and a break cost less than a page together, and still take two pages. */
  lemma LastChunkStandsAlone(section: Section, images: seq<ImageLink>, box: PageBox, before: nat,
                             pages: seq<ReaderPage>,
                             placed: seq<Placed>, cuts: seq<nat>, text: string, rest: Fragments)
    requires |text| == Capacity(box) + 1 && FragmentLength(rest) == 1
    requires section.blocks == [Block("p", 0, Paragraph([Fragment(text, [], None)])), Block("b", 1, Break)]
    requires IsSectionLayout(section, images, box, before, pages, placed, cuts)
    ensures BlockCost(Paragraph(rest), box) + BlockCost(Break, box) <= Budget(box)
    ensures |pages| == 3
  {
    hide IsSectionLayout;
    BoxFacts(box);
    var blocks := section.blocks;
    var fragments := [Fragment(text, [], None)];
    assert fragments[..0] == [];
    assert FragmentLength(fragments) == |text|;
    ChunkFits(fragments, box);
    CeilingIs(|text|, Capacity(box), 1);
    var fewest := FewestPages(section, images, box, before, pages, placed, cuts);
    CutsAdvance(fewest, 2, 0, |fewest| - 1);
    assert |fewest| > 1 ==> IsGroup(blocks, box, fewest[1 - 1], fewest[1]);
    CostContains(blocks, box, 0, 2, 0);
    if |fewest| == 2 {
      assert false;
    }
    CutsAdvance(fewest, 2, 0, 1);
    CutsAdvance(fewest, 2, 1, 2);
    assert fewest == [0, 1, 2];
    assert PieceCount(blocks[0].content, box) == 2 && PieceCount(blocks[1].content, box) == 1;
    assert ArrangementPages(blocks, box, fewest, 1) == 2;
  }
}
