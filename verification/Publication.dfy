/** Reader documents: prose sections of blocks, comic pages of panels, and the pages shown. */
module Publication {
  import opened Wrappers

  datatype Mark = Strong | Emphasis | Code | Subscript | Superscript

  datatype Fragment = Fragment(text: string, marks: seq<Mark>, href: Option<string>)

  type Fragments = seq<Fragment>

  datatype Content =
    | Heading(level: int, fragments: Fragments)
    | Paragraph(fragments: Fragments)
    | Quote(fragments: Fragments)
    | List(ordered: bool, items: seq<Fragments>)
    | Image(imageId: string, alt: string)
    | Break

  datatype Block = Block(id: string, ordinal: int, content: Content)

  datatype Section = Section(id: string, ordinal: int, blocks: seq<Block>)

  datatype ImageLink = ImageLink(id: string, url: string)

  datatype Panel = Panel(id: string, ordinal: int)

  datatype ComicSource = ComicSource(id: string, ordinal: int, url: string, width: int, height: int, panels: seq<Panel>)

  datatype ReaderDocument =
    | Prose(sections: seq<Section>, images: seq<ImageLink>)
    | Comic(guidedViewEnabled: bool, pages: seq<ComicSource>)

  datatype RenderedBlock = RenderedBlock(
    sourceBlockId: string, sourceStartOffset: int, sourceEndOffset: int, content: Content, imageUrl: Option<string>)

  datatype ReaderPage =
    | TextPage(chapter: int, at: int, heading: Option<string>, paras: seq<string>,
               blocks: seq<RenderedBlock>, folio: string)
    | ComicPage(sourcePageId: string, at: int, folio: string, caption: string,
                imageUrl: string, imageWidth: int, imageHeight: int, panels: seq<Panel>)

  // ---------- lengths ----------

  function FragmentLength(fragments: Fragments): nat {
    if fragments == [] then 0
    else FragmentLength(fragments[..|fragments| - 1]) + |fragments[|fragments| - 1].text|
  }

  function ItemsLength(items: seq<Fragments>): nat {
    if items == [] then 0 else ItemsLength(items[..|items| - 1]) + FragmentLength(items[|items| - 1])
  }

  /** How many characters of a block a reading position can count. */
  function VisibleLength(content: Content): nat {
    match content
    case Heading(_, fragments) => FragmentLength(fragments)
    case Paragraph(fragments) => FragmentLength(fragments)
    case Quote(fragments) => FragmentLength(fragments)
    case List(_, items) => ItemsLength(items)
    case Image(_, _) => 0
    case Break => 0
  }

  // ---------- styled characters ----------

  /** One character with the marks and the link it is shown with. */
  datatype Styled = Styled(character: char, marks: seq<Mark>, href: Option<string>)

  /** A missing link and an empty one are both no link. */
  function Link(href: Option<string>): Option<string> {
    if href == Some("") then None else href
  }

  /** No fragment carries an empty link. */
  ghost predicate NoEmptyLink(fragments: Fragments) {
    forall f | f in fragments :: f.href != Some("")
  }

  ghost function StyledText(f: Fragment): (s: seq<Styled>)
    ensures |s| == |f.text|
    ensures forall k | 0 <= k < |s| :: s[k] == Styled(f.text[k], f.marks, Link(f.href))
  {
    seq(|f.text|, k requires 0 <= k < |f.text| => Styled(f.text[k], f.marks, Link(f.href)))
  }

  ghost function Characters(fragments: Fragments): (s: seq<Styled>)
    ensures |s| == FragmentLength(fragments)
  {
    if fragments == [] then []
    else Characters(fragments[..|fragments| - 1]) + StyledText(fragments[|fragments| - 1])
  }

  lemma CharactersAppend(fragments: Fragments, f: Fragment)
    ensures Characters(fragments + [f]) == Characters(fragments) + StyledText(f)
    ensures FragmentLength(fragments + [f]) == FragmentLength(fragments) + |f.text|
  {
    assert (fragments + [f])[..|fragments|] == fragments;
  }

  /** The same characters with the links exactly as the fragments carry them. */
  ghost function RawText(f: Fragment): (s: seq<Styled>)
    ensures |s| == |f.text|
    ensures forall k | 0 <= k < |s| :: s[k] == Styled(f.text[k], f.marks, f.href)
  {
    seq(|f.text|, k requires 0 <= k < |f.text| => Styled(f.text[k], f.marks, f.href))
  }

  ghost function RawCharacters(fragments: Fragments): (s: seq<Styled>)
    ensures |s| == FragmentLength(fragments)
  {
    if fragments == [] then []
    else RawCharacters(fragments[..|fragments| - 1]) + RawText(fragments[|fragments| - 1])
  }

  /** The same character and marks, and the same link except that an empty one is none. */
  ghost predicate Renders(shown: Styled, raw: Styled) {
    && shown.character == raw.character && shown.marks == raw.marks
    && forall h :: shown.href == Some(h) <==> raw.href == Some(h) && h != ""
  }

  ghost predicate AllRender(shown: seq<Styled>, raw: seq<Styled>) {
    |shown| == |raw| && forall k | 0 <= k < |raw| :: Renders(shown[k], raw[k])
  }

  /** The styled characters of fragments show the raw ones. */
  lemma {:induction false} StyledShowsRaw(fragments: Fragments)
    ensures AllRender(Characters(fragments), RawCharacters(fragments))
  {
    if fragments == [] {
    } else {
      var n := |fragments| - 1;
      StyledShowsRaw(fragments[..n]);
      var f := fragments[n];
      forall k | 0 <= k < |f.text| ensures Renders(StyledText(f)[k], RawText(f)[k]) {
        LinkShown(f.href);
      }
    }
  }

  lemma LinkShown(href: Option<string>)
    ensures forall h :: Link(href) == Some(h) <==> href == Some(h) && h != ""
  {
  }

  /** Where no link is empty the raw characters are the styled ones. */
  lemma {:induction false} StyledIsRaw(fragments: Fragments)
    requires NoEmptyLink(fragments)
    ensures Characters(fragments) == RawCharacters(fragments)
  {
    if fragments == [] {
    } else {
      var n := |fragments| - 1;
      StyledIsRaw(fragments[..n]);
      assert fragments[n] in fragments;
      assert StyledText(fragments[n]) == RawText(fragments[n]);
    }
  }

  // ---------- document order ----------

  function Blocks(sections: seq<Section>): seq<Block> {
    if sections == [] then [] else Blocks(sections[..|sections| - 1]) + sections[|sections| - 1].blocks
  }

  predicate DistinctIds(blocks: seq<Block>) {
    forall i, j | 0 <= i < j < |blocks| :: blocks[i].id != blocks[j].id
  }

  predicate DistinctPageIds(pages: seq<ComicSource>) {
    forall i, j | 0 <= i < j < |pages| :: pages[i].id != pages[j].id
  }
}
