/** What a text page says besides its blocks: its heading, its paragraphs, its number; and what the
    blocks cost, in the source's own units. */
module PageContents {
  import opened Wrappers
  import opened Text
  import opened Publication
  import opened PageLayout
  import opened PageTheorems

  // ---------- plain text ----------

  /** The text of fragments is their characters. */
  lemma {:induction false} TextIsCharacters(fragments: Fragments)
    ensures |FragmentText(fragments)| == FragmentLength(fragments)
    ensures forall k | 0 <= k < FragmentLength(fragments) ::
      FragmentText(fragments)[k] == RawCharacters(fragments)[k].character
  {
    if fragments == [] {
    } else {
      TextIsCharacters(fragments[..|fragments| - 1]);
    }
  }

  /** The plain text of a heading, a paragraph or a quote is its characters; an image or a break has none. */
  lemma PlainTextIs(content: Content)
    ensures !content.List? ==>
      && |PlainText(content)| == |RawContent(content)|
      && forall k | 0 <= k < |RawContent(content)| :: PlainText(content)[k] == RawContent(content)[k].character
  {
    match content
    case Heading(_, fragments) => TextIsCharacters(fragments);
    case Paragraph(fragments) => TextIsCharacters(fragments);
    case Quote(fragments) => TextIsCharacters(fragments);
    case List(_, _) =>
    case Image(_, _) =>
    case Break =>
  }

  /** A list reads as one line for each item: its number and a point, or a bullet, then a blank and its text. */
  lemma ListText(ordered: bool, items: seq<Fragments>, i: nat)
    requires i < |items|
    ensures PlainText(List(ordered, items)) == Join(ItemTexts(ordered, items), '\n')
    ensures |ItemTexts(ordered, items)| == |items|
    ensures var line, text := ItemTexts(ordered, items)[i], FragmentText(items[i]);
      && text <= line[|line| - |text|..]
      && var marker := line[..|line| - |text|];
         if ordered then
           |marker| >= 3 && marker[|marker| - 2..] == ". "
           && AllDigits(marker[..|marker| - 2], 10) && Value(marker[..|marker| - 2], 10) == i + 1
         else marker == "\U{2022} "
  {
    var line, text := ItemTexts(ordered, items)[i], FragmentText(items[i]);
    var digits := Digits(i + 1, 10);
    ValueDigits(i + 1, 10);
    hide Digits, Value, FragmentText;
    if ordered {
      assert line == digits + ". " + text;
      assert line[..|line| - |text|] == digits + ". ";
      assert (digits + ". ")[..|digits|] == digits && (digits + ". ")[|digits|..] == ". ";
    } else {
      assert line == "\U{2022} " + text;
    }
  }

  // ---------- the page ----------

  /** The heading of the first block that is one, or none if there is no such block. */
  ghost predicate IsHeadingOf(heading: Option<string>, blocks: seq<RenderedBlock>) {
    match heading
    case None => forall k | 0 <= k < |blocks| :: !blocks[k].content.Heading?
    case Some(text) => exists k :: IsFirstHeading(blocks, k) && text == FragmentText(blocks[k].content.fragments)
  }

  predicate IsFirstHeading(blocks: seq<RenderedBlock>, k: int) {
    0 <= k < |blocks| && blocks[k].content.Heading? && forall j | 0 <= j < k :: !blocks[j].content.Heading?
  }

  lemma {:induction false} HeadingFound(blocks: seq<RenderedBlock>)
    ensures IsHeadingOf(FirstHeading(blocks), blocks)
  {
    if blocks == [] {
    } else if blocks[0].content.Heading? {
      assert IsFirstHeading(blocks, 0);
    } else {
      HeadingFound(blocks[1..]);
      if FirstHeading(blocks[1..]).Some? {
        var k :| IsFirstHeading(blocks[1..], k)
          && FirstHeading(blocks[1..]) == Some(FragmentText(blocks[1..][k].content.fragments));
        assert forall j | 0 < j <= k :: blocks[j] == blocks[1..][j - 1];
        assert IsFirstHeading(blocks, k + 1);
      } else {
        assert forall j | 0 < j < |blocks| :: blocks[j] == blocks[1..][j - 1];
      }
    }
  }

  /** The picked blocks are those that have text, in order, and these are their texts. */
  ghost predicate ArePicked(blocks: seq<RenderedBlock>, texts: seq<string>, picks: seq<nat>) {
    PicksSay(blocks, texts, picks) && Rising(picks) && PicksAll(blocks, picks)
  }

  ghost predicate PicksSay(blocks: seq<RenderedBlock>, texts: seq<string>, picks: seq<nat>) {
    && |picks| == |texts|
    && forall i | 0 <= i < |picks| ::
         picks[i] < |blocks| && texts[i] == PlainText(blocks[picks[i]].content) && texts[i] != ""
  }

  ghost predicate Rising(picks: seq<nat>) {
    forall i, j | 0 <= i < j < |picks| :: picks[i] < picks[j]
  }

  ghost predicate PicksAll(blocks: seq<RenderedBlock>, picks: seq<nat>) {
    forall k | 0 <= k < |blocks| && PlainText(blocks[k].content) != "" :: exists i :: IsAt(picks, i, k)
  }

  predicate IsAt(picks: seq<nat>, i: int, k: nat) {
    0 <= i < |picks| && picks[i] == k
  }

  function Next(picks: seq<nat>): (later: seq<nat>)
    ensures |later| == |picks| && forall i | 0 <= i < |picks| :: later[i] == picks[i] + 1
  {
    seq(|picks|, i requires 0 <= i < |picks| => picks[i] + 1)
  }

  lemma AllLater(block: RenderedBlock, rest: seq<RenderedBlock>, picks: seq<nat>, k: nat)
    requires PicksAll(rest, picks) && 0 < k <= |rest| && PlainText(([block] + rest)[k].content) != ""
    ensures exists i :: IsAt(Next(picks), i, k)
  {
    hide PlainText;
    assert ([block] + rest)[k] == rest[k - 1];
    var i :| IsAt(picks, i, k - 1);
    assert IsAt(Next(picks), i, k);
  }

  /** With a block without text in front the picks move on by one. */
  lemma PickedLater(block: RenderedBlock, rest: seq<RenderedBlock>, texts: seq<string>, picks: seq<nat>)
    requires ArePicked(rest, texts, picks) && PlainText(block.content) == ""
    ensures ArePicked([block] + rest, texts, Next(picks))
  {
    hide PlainText, PicksAll;
    var all, later := [block] + rest, Next(picks);
    forall i | 0 <= i < |later|
      ensures later[i] < |all| && texts[i] == PlainText(all[later[i]].content) && texts[i] != ""
    {
      assert all[later[i]] == rest[picks[i]];
    }
    hide PicksSay, Rising;
    assert PicksAll(all, later) by {
      AllPickedLater(block, rest, picks);
    }
  }

  lemma AllPickedLater(block: RenderedBlock, rest: seq<RenderedBlock>, picks: seq<nat>)
    requires PicksAll(rest, picks) && PlainText(block.content) == ""
    ensures PicksAll([block] + rest, Next(picks))
  {
    hide PlainText, IsAt;
    forall k | 0 <= k < |[block] + rest| && PlainText(([block] + rest)[k].content) != ""
      ensures exists i :: IsAt(Next(picks), i, k)
    {
      AllLater(block, rest, picks, k);
    }
  }

  /** A block with text in front is picked too. */
  lemma PickedFirst(block: RenderedBlock, rest: seq<RenderedBlock>, texts: seq<string>, picks: seq<nat>)
    requires ArePicked(rest, texts, picks) && PlainText(block.content) != ""
    ensures ArePicked([block] + rest, [PlainText(block.content)] + texts, [0] + Next(picks))
  {
    hide PlainText, PicksAll;
    var all, said, found := [block] + rest, [PlainText(block.content)] + texts, [0] + Next(picks);
    forall i | 0 <= i < |found|
      ensures found[i] < |all| && said[i] == PlainText(all[found[i]].content) && said[i] != ""
    {
      if i > 0 {
        assert found[i] == picks[i - 1] + 1 && said[i] == texts[i - 1] && all[found[i]] == rest[picks[i - 1]];
      }
    }
    hide PicksSay, Rising;
    assert PicksAll(all, found) by {
      AllPickedFirst(block, rest, picks);
    }
  }

  lemma AllPickedFirst(block: RenderedBlock, rest: seq<RenderedBlock>, picks: seq<nat>)
    requires PicksAll(rest, picks)
    ensures PicksAll([block] + rest, [0] + Next(picks))
  {
    hide PlainText;
    var found := [0] + Next(picks);
    forall k | 0 <= k < |[block] + rest| && PlainText(([block] + rest)[k].content) != ""
      ensures exists i :: IsAt(found, i, k)
    {
      if k == 0 {
        assert IsAt(found, 0, 0);
      } else {
        AllLater(block, rest, picks, k);
        var i :| IsAt(Next(picks), i, k);
        assert IsAt(found, i + 1, k);
      }
    }
  }

  lemma {:induction false} ParasPicked(blocks: seq<RenderedBlock>) returns (picks: seq<nat>)
    ensures ArePicked(blocks, Paras(blocks), picks)
  {
    hide PlainText, ArePicked, Paras;
    ParasFront(blocks);
    if blocks == [] {
      NothingPicked();
      picks := [];
    } else {
      var rest := ParasPicked(blocks[1..]);
      assert blocks == [blocks[0]] + blocks[1..];
      if PlainText(blocks[0].content) == "" {
        PickedLater(blocks[0], blocks[1..], Paras(blocks[1..]), rest);
        picks := Next(rest);
      } else {
        PickedFirst(blocks[0], blocks[1..], Paras(blocks[1..]), rest);
        picks := [0] + Next(rest);
      }
    }
  }

  lemma ParasFront(blocks: seq<RenderedBlock>)
    ensures blocks == [] ==> Paras(blocks) == []
    ensures blocks != [] ==> var text := PlainText(blocks[0].content);
      Paras(blocks) == if text == "" then Paras(blocks[1..]) else [text] + Paras(blocks[1..])
  {
    hide PlainText;
  }

  lemma NothingPicked()
    ensures ArePicked([], [], [])
  {
  }

  /** A page has the heading of its first heading block, a paragraph for each block that has text, and the
      decimal number of its place among all pages. */
  lemma PageSays(section: Section, images: seq<ImageLink>, box: PageBox, before: nat,
                 pages: seq<ReaderPage>, placed: seq<Placed>, cuts: seq<nat>, p: nat) returns (picks: seq<nat>)
    requires IsSectionLayout(section, images, box, before, pages, placed, cuts) && p < |pages|
    ensures pages[p].TextPage? && IsHeadingOf(pages[p].heading, pages[p].blocks)
    ensures ArePicked(pages[p].blocks, pages[p].paras, picks)
    ensures AllDigits(pages[p].folio, 10) && Value(pages[p].folio, 10) == before + p + 1
    ensures pages[p].folio != "" && pages[p].folio[0] != '0'
  {
    hide *;
    var at := PageMade(section, images, box, before, pages, placed, cuts, p);
    MadeFields(section.ordinal, at, pages[p].blocks, before + p);
    HeadingFound(pages[p].blocks);
    picks := ParasPicked(pages[p].blocks);
    NumberReads(before + p + 1);
  }

  lemma PageMade(section: Section, images: seq<ImageLink>, box: PageBox, before: nat,
                 pages: seq<ReaderPage>, placed: seq<Placed>, cuts: seq<nat>, p: nat) returns (at: int)
    requires IsSectionLayout(section, images, box, before, pages, placed, cuts) && p < |pages|
    ensures pages[p].TextPage? && pages[p] == MakePage(section.ordinal, at, pages[p].blocks, before + p)
  {
    hide Covers, Fits, Full, PlaceOf, FirstHeading, Paras;
    assert ShowsPieces(pages[p + 1 - 1], section.ordinal, before + (p + 1) - 1, section.blocks, placed,
                       cuts[p + 1 - 1], cuts[p + 1]);
    at := pages[p].at;
  }

  lemma MadeFields(chapter: int, at: int, blocks: seq<RenderedBlock>, before: nat)
    ensures var page := MakePage(chapter, at, blocks, before);
      && page.TextPage? && page.chapter == chapter && page.at == at && page.blocks == blocks
      && page.heading == FirstHeading(blocks) && page.paras == Paras(blocks) && page.folio == Digits(before + 1, 10)
  {
  }

  lemma NumberReads(n: nat)
    requires n >= 1
    ensures var s := Digits(n, 10); AllDigits(s, 10) && Value(s, 10) == n && s != "" && s[0] != '0'
  {
    ValueDigits(n, 10);
    ValueDigits(0, 10);
    assert Digits(0, 10) == "0";
  }

  // ---------- costs, in characters ----------

  /** How many characters a block counts for: those it shows, and one for an image. */
  ghost function Counted(content: Content): nat {
    if content.Image? then 1 else |ContentCharacters(content)|
  }

  /** The cost of a block in characters, as the source has it. */
  ghost predicate CostsInCharacters(content: Content, columns: real, budget: real, cost: real) {
    var n := Counted(content) as real;
    match content
    case Heading(_, _) => cost == n + columns * 2.5
    case Paragraph(_) => cost == n + columns * 0.65
    case Quote(_) => cost == n + columns * 1.2
    case List(_, items) => cost == n + columns * (1.0 + |items| as real * 0.65)
    case Image(_, _) =>
      (cost == columns * 6.0 || cost == budget * 0.48) && cost >= columns * 6.0 && cost >= budget * 0.48
    case Break => cost == columns * 1.5
  }

  lemma Scaled(a: nat, b: nat)
    ensures (a * b) as real == a as real * b as real
  {
  }

  /** Costs, budget and capacity are exactly those of the source, a hundredfold. */
  lemma CostsAreExact(content: Content, box: PageBox)
    ensures var columns, budget := box.columns as real, box.columns as real * box.rows as real;
      && Budget(box) as real == 100.0 * budget
      && CostsInCharacters(content, columns, budget, BlockCost(content, box) as real / 100.0)
      && BlockLength(content) == Counted(content)
      && (Oversized(content, box) <==> content.Paragraph? && Counted(content) as real + columns * 0.65 > budget)
  {
    Scaled(box.columns, box.rows);
    CountedIsLength(content);
    hide Counted, BlockLength;
    match content
    case List(_, _) => ListCost(content, box);
    case _ =>
  }

  lemma CountedIsLength(content: Content)
    ensures BlockLength(content) == Counted(content)
  {
  }

  lemma ListCost(content: Content, box: PageBox)
    requires content.List?
    ensures BlockCost(content, box) as real / 100.0
         == Counted(content) as real + box.columns as real * (1.0 + |content.items| as real * 0.65)
  {
    hide *;
    var n, m, c := BlockLength(content), |content.items|, box.columns;
    ListWhole(content, box);
    Scaled(m, c);
    Spread(m, c);
    ListReal(BlockCost(content, box), n, m, c, m * c);
  }

  lemma ListWhole(content: Content, box: PageBox)
    requires content.List?
    ensures BlockCost(content, box) == 100 * BlockLength(content) + (100 + 65 * |content.items|) * box.columns
    ensures Counted(content) == BlockLength(content)
  {
  }

  lemma ListReal(cost: int, n: nat, m: nat, c: nat, p: nat)
    requires cost == 100 * n + 100 * c + 65 * p && p as real == m as real * c as real
    ensures cost as real / 100.0 == n as real + c as real * (1.0 + m as real * 0.65)
  {
    SpreadReal(m as real, c as real);
  }

  lemma Spread(m: nat, c: nat)
    ensures (100 + 65 * m) * c == 100 * c + 65 * (m * c)
  {
  }

  lemma SpreadReal(m: real, c: real)
    ensures c * (1.0 + m * 0.65) == c + 0.65 * (m * c)
  {
  }

  /** The capacity is the larger of the columns and what is left of the budget, in whole characters. */
  lemma CapacityIsExact(box: PageBox)
    ensures var columns, budget := box.columns as real, box.columns as real * box.rows as real;
      var left := (budget - columns * 0.65).Floor;
      Capacity(box) == if left > box.columns then left else box.columns
  {
    Scaled(box.columns, box.rows);
    BoxFacts(box);
    var hundredfold := Budget(box) - 65 * box.columns;
    var q := hundredfold / 100;
    assert 100 * q <= hundredfold < 100 * q + 100;
    assert (box.columns as real * box.rows as real - box.columns as real * 0.65) == hundredfold as real / 100.0;
  }
}
