/** Reader persistence: clamping a position to the document, and the versioned progress store. */
module Persistence {
  import opened Wrappers
  import opened Publication
  import opened PageLayout
  import opened PageFilling
  import opened Locations
  import opened LocationTheorems

  // ---------- clamping ----------

  function FirstDocumentLocation(document: ReaderDocument): Option<ReaderLocation> {
    match document
    case Prose(sections, _) =>
      if Blocks(sections) == [] then None else Some(ProseLocation(Blocks(sections)[0].id, 0))
    case Comic(_, sources) =>
      if sources == [] then None else Some(ComicLocation(sources[0].id, None))
  }

  function ClampLocation(document: ReaderDocument, location: ReaderLocation): Option<ReaderLocation> {
    match document
    case Prose(sections, _) =>
      if !location.ProseLocation? then FirstDocumentLocation(document)
      else
        var block := FindBlock(Blocks(sections), location.blockId);
        if block.Some? then Some(ProseLocation(location.blockId, Target(block.value, location.offset)))
        else FirstDocumentLocation(document)
    case Comic(guided, sources) =>
      if !location.ComicLocation? then FirstDocumentLocation(document)
      else
        var page := FindComicPage(sources, location.pageId);
        if page.Some? then
          var kept := location.panelOrdinal.Some? && guided && HasPanel(page.value, location.panelOrdinal.value);
          Some(ComicLocation(location.pageId, if kept then location.panelOrdinal else None))
        else FirstDocumentLocation(document)
  }

  lemma {:induction false} FindFirst(blocks: seq<Block>)
    requires blocks != []
    ensures FindBlock(blocks, blocks[0].id) == Some(blocks[0])
  {
    if |blocks| > 1 {
      FindFirst(blocks[..|blocks| - 1]);
    } else {
      assert FindBlock(blocks[..0], blocks[0].id) == None;
    }
  }

  /** Clamping a clamped position changes nothing. */
  lemma ClampIdempotent(document: ReaderDocument, location: ReaderLocation)
    requires ClampLocation(document, location).Some?
    ensures ClampLocation(document, ClampLocation(document, location).value) == ClampLocation(document, location)
  {
    if document.Prose? && Blocks(document.sections) != [] {
      FindFirst(Blocks(document.sections));
    }
  }

  /** A position falls on a page of any pagination exactly when it refers to something there: a block
      at a non-negative offset, or a comic page at none or one of its panels. */
  ghost predicate Refers(document: ReaderDocument, location: ReaderLocation) {
    match document
    case Prose(sections, _) =>
      location.ProseLocation? && location.offset >= 0 && FindBlock(Blocks(sections), location.blockId).Some?
    case Comic(guided, sources) =>
      && location.ComicLocation? && FindComicPage(sources, location.pageId).Some?
      && (location.panelOrdinal.Some? ==>
            guided && HasPanel(FindComicPage(sources, location.pageId).value, location.panelOrdinal.value))
  }

  lemma PositionFalls(document: ReaderDocument, box: PageBox, pages: seq<ReaderPage>, location: ReaderLocation,
                      r: Option<nat>)
    requires IsPaginated(document, box, pages) && HasDistinctIds(document) && FallsOn(document, pages, location, r)
    ensures r.Some? <==> Refers(document, location)
  {
    hide IsDocumentLayout, PageShows;
    if Refers(document, location) {
      match document
      case Prose(sections, images) =>
        var layouts, placed, cuts :| IsProsePagination(sections, images, box, pages, layouts, placed, cuts);
        var b := FoundIndex(Blocks(sections), location.blockId);
        var p, m := EveryPositionFalls(sections, images, box, pages, placed, cuts, b, location.offset);
      case Comic(guided, sources) =>
        var i := FoundComicPage(sources, location.pageId);
        assert Hits(document, pages, location, i);
    }
  }

  /** What clamping returns falls on a page of every pagination, unless the position named a block of
      the document at a negative offset, which clamping leaves as it is. */
  lemma ClampedPositionFalls(document: ReaderDocument, box: PageBox, pages: seq<ReaderPage>, location: ReaderLocation,
                             clamped: ReaderLocation, r: Option<nat>)
    requires IsPaginated(document, box, pages) && HasDistinctIds(document)
    requires ClampLocation(document, location) == Some(clamped) && FallsOn(document, pages, clamped, r)
    ensures r.Some? <==> !(document.Prose? && location.ProseLocation? && location.offset < 0
                           && FindBlock(Blocks(document.sections), location.blockId).Some?)
  {
    PositionFalls(document, box, pages, clamped, r);
    if document.Prose? && Blocks(document.sections) != [] {
      FindFirst(Blocks(document.sections));
    }
  }

  const ONE_BREAK := Prose([Section("s", 0, [Block("b", 0, Break)])], [])

  /** Such a position: a negative offset of the only block of a document. Clamping keeps it, and it falls
      on no page. */
  lemma NegativeOffsetKept(box: PageBox, pages: seq<ReaderPage>, r: Option<nat>)
    requires IsPaginated(ONE_BREAK, box, pages)
    requires FallsOn(ONE_BREAK, pages, ProseLocation("b", -1), r)
    ensures ClampLocation(ONE_BREAK, ProseLocation("b", -1)) == Some(ProseLocation("b", -1))
    ensures HasDistinctIds(ONE_BREAK) && r == None
  {
    var sections := ONE_BREAK.sections;
    assert sections[..0] == [] && Blocks(sections) == sections[0].blocks;
    FindFirst(Blocks(sections));
  }

  /** Clamping does not move a position that falls on a page. */
  lemma ClampKeepsPage(document: ReaderDocument, pages: seq<ReaderPage>, location: ReaderLocation, p: nat)
    requires FallsOn(document, pages, location, Some(p))
    ensures ClampLocation(document, location).Some?
    ensures FallsOn(document, pages, ClampLocation(document, location).value, Some(p))
  {
    var clamped := ClampLocation(document, location).value;
    forall i ensures Hits(document, pages, clamped, i) <==> Hits(document, pages, location, i) {
    }
  }

  /** The start of a document: its first block at offset zero, or its first page at no panel. */
  ghost predicate IsStart(document: ReaderDocument, location: ReaderLocation) {
    match document
    case Prose(sections, _) =>
      exists s :: IsFirstFilled(sections, s) && location == ProseLocation(sections[s].blocks[0].id, 0)
    case Comic(_, sources) => sources != [] && location == ComicLocation(sources[0].id, None)
  }

  /** The first section that has a block. */
  predicate IsFirstFilled(sections: seq<Section>, s: int) {
    0 <= s < |sections| && sections[s].blocks != [] && forall r | 0 <= r < s :: sections[r].blocks == []
  }

  ghost predicate HasNothing(document: ReaderDocument) {
    match document
    case Prose(sections, _) => forall s | 0 <= s < |sections| :: sections[s].blocks == []
    case Comic(_, sources) => sources == []
  }

  lemma {:induction false} FirstBlock(sections: seq<Section>)
    ensures Blocks(sections) == [] ==> forall s | 0 <= s < |sections| :: sections[s].blocks == []
    ensures Blocks(sections) != [] ==>
      exists s :: IsFirstFilled(sections, s) && Blocks(sections)[0] == sections[s].blocks[0]
  {
    if sections == [] {
    } else {
      var n := |sections| - 1;
      var front := sections[..n];
      FirstBlock(front);
      assert Blocks(sections) == Blocks(front) + sections[n].blocks;
      hide Blocks;
      assert forall r | 0 <= r < n :: front[r] == sections[r];
      if Blocks(front) != [] {
        var s :| IsFirstFilled(front, s) && Blocks(front)[0] == front[s].blocks[0];
        assert IsFirstFilled(sections, s);
      } else if sections[n].blocks != [] {
        assert IsFirstFilled(sections, n);
      }
    }
  }

  /** Where a position is clamped to: a known block keeps the smaller of the offset and its length; a known
      page keeps a panel it has in a guided comic, and otherwise no panel; everything else goes to the start. */
  lemma ClampDoes(document: ReaderDocument, location: ReaderLocation)
    ensures match (document, location)
      case (Prose(sections, _), ProseLocation(id, offset)) =>
        (match FindBlock(Blocks(sections), id)
         case Some(block) =>
           && (offset <= VisibleLength(block.content) ==> ClampLocation(document, location) == Some(location))
           && (offset > VisibleLength(block.content) ==>
                 ClampLocation(document, location) == Some(ProseLocation(id, VisibleLength(block.content))))
         case None => ClampedToStart(document, location))
      case (Comic(guided, sources), ComicLocation(id, panel)) =>
        (match FindComicPage(sources, id)
         case Some(page) =>
           if panel == None || (guided && exists k | 0 <= k < |page.panels| :: page.panels[k].ordinal == panel.value)
           then ClampLocation(document, location) == Some(location)
           else ClampLocation(document, location) == Some(ComicLocation(id, None))
         case None => ClampedToStart(document, location))
      case _ => ClampedToStart(document, location)
  {
    if document.Prose? {
      FirstBlock(document.sections);
    }
  }

  ghost predicate ClampedToStart(document: ReaderDocument, location: ReaderLocation) {
    match ClampLocation(document, location)
    case Some(clamped) => IsStart(document, clamped)
    case None => HasNothing(document)
  }

  // ---------- the versioned progress store ----------

  datatype Progress = Progress(revisionId: string, location: ReaderLocation, version: nat, updatedAt: string)

  datatype ProgressInput = ProgressInput(location: ReaderLocation, expectedVersion: nat)

  datatype SaveOutcome = Saved(progress: Progress) | Conflict(current: Progress) | NoLocation

  function VersionOf(progress: Option<Progress>): nat {
    if progress.Some? then progress.value.version else 0
  }

  /** The store's rule: a position the document has, at the version it holds or while it holds none. */
  function PersistProgress(document: ReaderDocument, revisionId: string, stored: Option<Progress>,
                           input: ProgressInput, now: string): SaveOutcome {
    var location := ClampLocation(document, input.location);
    if location.None? then NoLocation
    else if input.expectedVersion != VersionOf(stored) && stored.Some? then Conflict(stored.value)
    else Saved(Progress(revisionId, location.value, VersionOf(stored) + 1, now))
  }

  /** What the store holds afterwards. */
  function After(stored: Option<Progress>, outcome: SaveOutcome): Option<Progress> {
    if outcome.Saved? then Some(outcome.progress) else stored
  }

  /** What the store does with a save: refuses it without a change when the document has no position or the
      store holds another version, and otherwise holds the clamped position, one version up. */
  lemma StoreDoes(document: ReaderDocument, revisionId: string, stored: Option<Progress>, input: ProgressInput,
                  now: string)
    ensures var outcome := PersistProgress(document, revisionId, stored, input, now);
      var clamped := ClampLocation(document, input.location);
      && (outcome == NoLocation <==> clamped == None)
      && (outcome.Conflict? <==> clamped.Some? && stored.Some? && input.expectedVersion != stored.value.version)
      && (outcome.Conflict? ==> Some(outcome.current) == stored)
      && (outcome.Saved? ==>
            && outcome.progress.revisionId == revisionId && Some(outcome.progress.location) == clamped
            && outcome.progress.updatedAt == now
            && outcome.progress.version == 1 + (match stored case Some(p) => p.version case None => 0))
      && After(stored, outcome) == (if outcome.Saved? then Some(outcome.progress) else stored)
  {
  }

  /** The local store, which keeps the progress in a field. */
  class LocalPersistence {
    const document: ReaderDocument
    const revisionId: string
    var progress: Option<Progress>

    constructor (document: ReaderDocument, revisionId: string, initial: Option<Progress>)
      ensures this.document == document && this.revisionId == revisionId && progress == initial
    {
      this.document, this.revisionId, progress := document, revisionId, initial;
    }

    method SaveProgress(input: ProgressInput, now: string) returns (outcome: SaveOutcome)
      modifies this`progress
      ensures outcome == PersistProgress(document, revisionId, old(progress), input, now)
      ensures progress == After(old(progress), outcome)
    {
      var location := ClampLocation(document, input.location);
      if location.None? {
        return NoLocation;
      }
      var currentVersion := if progress.Some? then progress.value.version else 0;
      if input.expectedVersion != currentVersion && progress.Some? {
        return Conflict(progress.value);
      }
      var value := Progress(revisionId, location.value, currentVersion + 1, now);
      progress := Some(value);
      return Saved(value);
    }

    /** A best-effort save: the outcome, whatever it is, is dropped. */
    method SaveProgressKeepalive(input: ProgressInput, now: string)
      modifies this`progress
      ensures progress == After(old(progress), PersistProgress(document, revisionId, old(progress), input, now))
    {
      var outcome := SaveProgress(input, now);
    }
  }
}
