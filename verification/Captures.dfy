/**
 Documents that refer to each other by identity, the tree of those that a snapshot
 captures, and what a whole tree costs.
 */
module Captures {
  import opened Text
  import opened Writer
  import opened Dom
  import opened Materialize
  import opened FrameOwners
  import Preflight
  import RepairDocument

  type DocumentId = nat

  type Root = n: Node | n.Element? witness Element(None, [], [], [], [], NoShadow)

  /** What copying a document comes across, in order. A frame names the owner's position
      among the document's frame owners and its document, if that can be reached. */
  datatype Work =
    | CanvasWork(canvas: Canvas)
    | VideoWork(video: Video)
    | StylesheetWork(sheet: Option<seq<Rule>>, allocatePayload: bool)
    | FrameWork(owner: nat, content: Option<DocumentId>)
    | ThrowingWork

  /** A document as the browser presents it: its nodes, the work of copying it, the copy,
      which of its frame owners the copy retains, and how the copy's text reparses. */
  datatype Page = Page(document: seq<Node>, work: seq<Work>, clone: Root, retained: seq<bool>, reparse: Str -> Option<Node>)

  type Pages = DocumentId -> Page

  // --- What a piece of work does when it does not hit a limit ---

  predicate CanvasKept(c: Canvas) {
    c.context && c.dataUrl.Some? && !c.placingThrows
  }

  predicate VideoKept(v: Video) {
    v.drawable && !v.drawingThrows && v.dataUrl.Some? && !v.placingThrows
  }

  /** It throws nothing but limits. */
  predicate Clean(w: Work) {
    match w
    case CanvasWork(c) => CanvasKept(c) || !c.fallbackThrows
    case VideoWork(v) => VideoKept(v) || !v.fallbackThrows
    case StylesheetWork(_, _) => true
    case FrameWork(_, _) => true
    case ThrowingWork => false
  }

  /** The bytes it adds to the document: the image in place of the canvas, the frame of
      the video, the text of a stylesheet that is allocated. */
  function KeptBytes(w: Work): nat {
    match w
    case CanvasWork(c) => if CanvasKept(c) then Utf8Length(c.dataUrl.value) else 0
    case VideoWork(v) => if VideoKept(v) then Utf8Length(v.dataUrl.value) else 0
    case StylesheetWork(sheet, allocate) => if allocate && sheet.Some? && AllRead(sheet.value) then Width(sheet.value) else 0
    case FrameWork(_, _) => 0
    case ThrowingWork => 0
  }

  function AllKept(work: seq<Work>): nat {
    if work == [] then 0 else AllKept(work[..|work| - 1]) + KeptBytes(work[|work| - 1])
  }

  lemma AllKeptStep(work: seq<Work>, i: nat)
    requires i < |work|
    ensures AllKept(work[..i + 1]) == AllKept(work[..i]) + KeptBytes(work[i])
  {
    assert work[..i + 1][..i] == work[..i];
  }

  /** Copying the document can throw something that is no limit. */
  ghost predicate Throwable(page: Page) {
    || (exists i :: 0 <= i < |page.work| && !Clean(page.work[i]))
    || (exists maximumBytes: nat :: RepairDocument.DocumentOutcome(page.clone, maximumBytes, page.reparse).Threw?)
  }

  // --- What was captured ---

  /** What became of a piece of work: of a frame, that it had no document to reach, that
      its document threw something that is no limit, or that the document was captured. */
  datatype Slot = NoFrame | Unreachable | Failed | Entered

  /** A captured document, the position of its frame owner in the document around it (0
      for the outermost), the documents captured into its own frames, in order, and what
      became of each piece of its work. */
  datatype Capture = Capture(owner: nat, id: DocumentId, nested: seq<Capture>, trace: seq<Slot>)

  ghost function Count(c: Capture): nat
    decreases c, 1
  {
    1 + CountAll(c.nested)
  }

  ghost function CountAll(nested: seq<Capture>): nat
    decreases nested, 0
  {
    if nested == [] then 0 else CountAll(nested[..|nested| - 1]) + Count(nested[|nested| - 1])
  }

  ghost function NodesIn(pages: Pages, c: Capture): nat
    decreases c, 1
  {
    Preflight.ForestNodes(pages(c.id).document) + NodesInAll(pages, c.nested)
  }

  ghost function NodesInAll(pages: Pages, nested: seq<Capture>): nat
    decreases nested, 0
  {
    if nested == [] then 0 else NodesInAll(pages, nested[..|nested| - 1]) + NodesIn(pages, nested[|nested| - 1])
  }

  /** The frame owners of a captured document: retained as the page says, each with the
      owners of the document last captured into it. */
  ghost function OwnersOf(pages: Pages, c: Capture): seq<Owner>
    decreases c, 1
  {
    var retained := pages(c.id).retained;
    seq(|retained|, i requires 0 <= i < |retained| => Owner(retained[i], OwnersIn(pages, c.nested, i)))
  }

  ghost function OwnersIn(pages: Pages, nested: seq<Capture>, owner: nat): seq<Owner>
    decreases nested, 0
  {
    if nested == [] then []
    else if nested[|nested| - 1].owner == owner then OwnersOf(pages, nested[|nested| - 1])
    else OwnersIn(pages, nested[..|nested| - 1], owner)
  }

  ghost predicate Fills(n: Capture, work: Work) {
    work.FrameWork? && work.owner == n.owner && work.content == Some(n.id)
  }

  /** A frame is left out only when there is no document to reach or its document can
      throw something that is no limit. */
  ghost predicate Slotted(pages: Pages, slot: Slot, work: Work) {
    match slot
    case NoFrame => !work.FrameWork?
    case Unreachable => work.FrameWork? && work.content.None?
    case Failed => work.FrameWork? && work.content.Some? && Throwable(pages(work.content.value))
    case Entered => work.FrameWork? && work.content.Some?
  }

  /** The nested documents are exactly those of the frames that were entered, in order. */
  ghost predicate Traced(pages: Pages, nested: seq<Capture>, trace: seq<Slot>, work: seq<Work>)
    decreases |work|
  {
    if work == [] then nested == [] && trace == []
    else
      && trace != [] && Slotted(pages, trace[|trace| - 1], work[|work| - 1])
      && if trace[|trace| - 1].Entered?
         then nested != [] && Fills(nested[|nested| - 1], work[|work| - 1])
              && Traced(pages, nested[..|nested| - 1], trace[..|trace| - 1], work[..|work| - 1])
         else Traced(pages, nested, trace[..|trace| - 1], work[..|work| - 1])
  }

  ghost predicate Consistent(pages: Pages, c: Capture)
    decreases c, 1
  {
    Traced(pages, c.nested, c.trace, pages(c.id).work) && AllConsistent(pages, c.nested)
  }

  ghost predicate AllConsistent(pages: Pages, nested: seq<Capture>)
    decreases nested, 0
  {
    nested == [] ||
    (AllConsistent(pages, nested[..|nested| - 1]) && Consistent(pages, nested[|nested| - 1]))
  }

  /** At most `levels` documents lie inside each other. */
  ghost predicate Shallow(c: Capture, levels: nat)
    decreases c, 1
  {
    levels >= 1 && AllShallow(c.nested, levels - 1)
  }

  ghost predicate AllShallow(nested: seq<Capture>, levels: nat)
    decreases nested, 0
  {
    nested == [] || (AllShallow(nested[..|nested| - 1], levels) && Shallow(nested[|nested| - 1], levels))
  }

  lemma TracedMore(pages: Pages, nested: seq<Capture>, trace: seq<Slot>, work: seq<Work>, slot: Slot, next: Work)
    requires Traced(pages, nested, trace, work) && Slotted(pages, slot, next)
    ensures !slot.Entered? ==> Traced(pages, nested, trace + [slot], work + [next])
    ensures slot.Entered? ==> forall n :: Fills(n, next) ==> Traced(pages, nested + [n], trace + [slot], work + [next])
  {
    assert (work + [next])[..|work|] == work && (trace + [slot])[..|trace|] == trace;
    forall n | slot.Entered? && Fills(n, next)
      ensures Traced(pages, nested + [n], trace + [slot], work + [next])
    {
      assert (nested + [n])[..|nested|] == nested;
    }
  }

  lemma OwnerIsApart(pages: Pages, c: Capture, owner: nat)
    ensures var d := c.(owner := owner);
      && Count(d) == Count(c) && NodesIn(pages, d) == NodesIn(pages, c) && OwnersOf(pages, d) == OwnersOf(pages, c)
      && Consistent(pages, d) == Consistent(pages, c) && forall n :: Shallow(d, n) == Shallow(c, n)
  {
  }

  lemma ShallowMore(nested: seq<Capture>, n: Capture, levels: nat)
    requires AllShallow(nested, levels) && Shallow(n, levels)
    ensures AllShallow(nested + [n], levels)
  {
    assert (nested + [n])[..|nested|] == nested;
  }

  /** The lists kept for the frame owners are those of the documents captured into them. */
  ghost predicate Lists(pages: Pages, lists: map<nat, seq<Mapping>>, nested: seq<Capture>) {
    && (forall k :: k in lists ==> lists[k] == Listing(OwnersIn(pages, nested, k)))
    && (forall k: nat :: k !in lists ==> OwnersIn(pages, nested, k) == [])
  }

  lemma ListsMore(pages: Pages, lists: map<nat, seq<Mapping>>, nested: seq<Capture>, n: Capture)
    requires Lists(pages, lists, nested)
    ensures Lists(pages, lists[n.owner := Listing(OwnersOf(pages, n))], nested + [n])
    ensures CountAll(nested + [n]) == CountAll(nested) + Count(n)
    ensures NodesInAll(pages, nested + [n]) == NodesInAll(pages, nested) + NodesIn(pages, n)
    ensures AllConsistent(pages, nested) && Consistent(pages, n) ==> AllConsistent(pages, nested + [n])
  {
    hide Listing;
    assert (nested + [n])[..|nested|] == nested;
  }

  // --- Documents that nothing keeps from being captured ---

  /** The work throws nothing while the bytes it needs remain. */
  ghost predicate Calm(w: Work) {
    && Clean(w)
    && match w
       case CanvasWork(c) =>
         c.context ==> c.estimate.Some? && (c.dataUrl.Some? ==> Utf8Length(c.dataUrl.value) <= c.estimate.value)
       case VideoWork(v) =>
         v.drawable ==> v.estimate.Some? && (!v.drawingThrows && v.dataUrl.Some? ==> Utf8Length(v.dataUrl.value) <= v.estimate.value)
       case _ => true
  }

  /** Bytes that suffice for a piece of work that is no frame. */
  ghost function Need(w: Work): nat {
    match w
    case CanvasWork(c) => if c.context && c.estimate.Some? then c.estimate.value else 0
    case VideoWork(v) => if v.drawable && v.estimate.Some? then v.estimate.value else 0
    case StylesheetWork(sheet, _) => if sheet.Some? then Extent(sheet.value) + 1 else 0
    case FrameWork(_, _) => 0
    case ThrowingWork => 0
  }

  /** The copy's text comes out when it may take this many bytes. */
  ghost predicate Serializes(page: Page, maximumBytes: nat) {
    var outcome := RepairDocument.DocumentOutcome(page.clone, maximumBytes, page.reparse);
    outcome.Serialized? && outcome.result.Ok?
  }

  /** This is the text of the copy and its counted bytes, with a record if it needs one. */
  ghost predicate TextOf(page: Page, html: Str, bytes: nat) {
    exists maximumBytes: nat ::
      RepairDocument.DocumentOutcome(page.clone, maximumBytes, page.reparse) == RepairDocument.Serialized(Ok(bytes, html))
  }

  /** Bytes that suffice for the copy's text, if any do. */
  ghost function Size(page: Page): nat {
    if n: nat :| Serializes(page, n) then n else 0
  }

  /** Neither the document nor any document in its frames, `levels` deep at most, can
      throw anything but a limit, and each of them has a text. */
  ghost predicate Fine(pages: Pages, id: DocumentId, levels: nat)
    decreases levels, 0
  {
    && levels >= 1 && !Throwable(pages(id)) && (exists n: nat :: Serializes(pages(id), n))
    && AllFine(pages, pages(id).work, levels - 1)
  }

  ghost predicate WorkFine(pages: Pages, w: Work, levels: nat)
    decreases levels, 1
  {
    if w.FrameWork? then w.content.Some? ==> Fine(pages, w.content.value, levels) else Calm(w)
  }

  ghost predicate AllFine(pages: Pages, work: seq<Work>, levels: nat)
    decreases levels, 2 + |work|
  {
    work == [] || (AllFine(pages, work[..|work| - 1], levels) && WorkFine(pages, work[|work| - 1], levels))
  }

  datatype Load = Load(frames: nat, nodes: nat, bytes: nat)

  ghost function Plus(a: Load, b: Load): Load {
    Load(a.frames + b.frames, a.nodes + b.nodes, a.bytes + b.bytes)
  }

  /** What suffices for a document and all documents in its frames. */
  ghost function Cost(pages: Pages, id: DocumentId, levels: nat): Load
    decreases levels, 0
  {
    var document := pages(id).document;
    Plus(Load(1, Preflight.ForestNodes(document), Preflight.ForestBytes(document) + Size(pages(id))),
         if levels == 0 then Load(0, 0, 0) else CostAll(pages, pages(id).work, levels - 1))
  }

  ghost function WorkCost(pages: Pages, w: Work, levels: nat): Load
    decreases levels, 1
  {
    if w.FrameWork? then if w.content.Some? then Cost(pages, w.content.value, levels) else Load(0, 0, 0)
    else Load(0, 0, Need(w))
  }

  ghost function CostAll(pages: Pages, work: seq<Work>, levels: nat): Load
    decreases levels, 2 + |work|
  {
    if work == [] then Load(0, 0, 0)
    else Plus(CostAll(pages, work[..|work| - 1], levels), WorkCost(pages, work[|work| - 1], levels))
  }

  ghost predicate AtMost(a: Load, b: Load) {
    a.frames <= b.frames && a.nodes <= b.nodes && a.bytes <= b.bytes
  }

  lemma {:induction false} CostsAddUp(pages: Pages, work: seq<Work>, levels: nat, i: nat)
    requires i < |work|
    ensures CostAll(pages, work[..i + 1], levels) == Plus(CostAll(pages, work[..i], levels), WorkCost(pages, work[i], levels))
    ensures AtMost(CostAll(pages, work[..i + 1], levels), CostAll(pages, work, levels))
    ensures AllFine(pages, work, levels) ==> WorkFine(pages, work[i], levels)
    decreases |work| - i
  {
    hide WorkFine, WorkCost;
    assert work[..i + 1][..i] == work[..i];
    if i + 1 == |work| {
      assert work[..i + 1] == work;
    } else {
      CostsAddUp(pages, work[..|work| - 1], levels, i);
      assert work[..|work| - 1][..i + 1] == work[..i + 1] && work[..|work| - 1][..i] == work[..i];
    }
  }

  /** The text comes out when at least its size is allowed, and is no larger than that. */
  lemma SizeSuffices(page: Page, maximumBytes: nat)
    requires (exists n: nat :: Serializes(page, n)) && maximumBytes >= Size(page)
    ensures Serializes(page, maximumBytes)
    ensures RepairDocument.DocumentOutcome(page.clone, maximumBytes, page.reparse).result.bytes <= Size(page)
  {
    hide RepairDocument.DocumentOutcome;
    var n := Size(page);
    assert Serializes(page, n);
    RepairDocument.OutcomeStays(page.clone, n, maximumBytes, page.reparse);
  }

  /** Every frame with a document to reach has that document in the tree, in the frame's
      place, and so on inside. */
  ghost predicate HoldsEveryFrame(pages: Pages, c: Capture)
    decreases c, 1
  {
    && (forall i :: 0 <= i < |pages(c.id).work| && Leads(pages(c.id).work[i]) ==> Held(c.nested, pages(c.id).work[i]))
    && |c.nested| == Leading(pages(c.id).work)
    && AllHoldEveryFrame(pages, c.nested)
  }

  ghost predicate AllHoldEveryFrame(pages: Pages, nested: seq<Capture>)
    decreases nested, 0
  {
    nested == [] ||
    (AllHoldEveryFrame(pages, nested[..|nested| - 1]) && HoldsEveryFrame(pages, nested[|nested| - 1]))
  }

  predicate Leads(w: Work) {
    w.FrameWork? && w.content.Some?
  }

  ghost predicate Held(nested: seq<Capture>, w: Work) {
    exists j :: 0 <= j < |nested| && Fills(nested[j], w)
  }

  function Leading(work: seq<Work>): nat {
    if work == [] then 0 else Leading(work[..|work| - 1]) + if Leads(work[|work| - 1]) then 1 else 0
  }

  lemma {:induction false} TracedHolds(pages: Pages, nested: seq<Capture>, trace: seq<Slot>, work: seq<Work>, levels: nat)
    requires Traced(pages, nested, trace, work) && AllFine(pages, work, levels)
    ensures forall i :: 0 <= i < |work| && Leads(work[i]) ==> Held(nested, work[i])
    ensures |nested| == Leading(work)
    ensures forall j :: 0 <= j < |nested| ==> Fine(pages, nested[j].id, levels)
    decreases |work|
  {
    hide Throwable, Serializes;
    if work != [] {
      var front, slot, last := work[..|work| - 1], trace[|trace| - 1], work[|work| - 1];
      assert WorkFine(pages, last, levels);
      if slot.Entered? {
        var before := nested[..|nested| - 1];
        TracedHolds(pages, before, trace[..|trace| - 1], front, levels);
        assert Fills(nested[|nested| - 1], last);
        forall i | 0 <= i < |work| && Leads(work[i])
          ensures Held(nested, work[i])
        {
          if i < |front| {
            assert front[i] == work[i];
            var j :| 0 <= j < |before| && Fills(before[j], front[i]);
            assert nested[j] == before[j];
          }
        }
      } else {
        TracedHolds(pages, nested, trace[..|trace| - 1], front, levels);
        assert !Leads(last);
        forall i | 0 <= i < |work| && Leads(work[i])
          ensures Held(nested, work[i])
        {
          assert front[i] == work[i];
        }
      }
    }
  }

  /** A captured tree over documents that cannot throw has every frame of every page. */
  lemma {:induction false} NothingLeftOut(pages: Pages, c: Capture, levels: nat)
    requires Consistent(pages, c) && Fine(pages, c.id, levels)
    ensures HoldsEveryFrame(pages, c)
    decreases c, 1
  {
    hide Throwable, Serializes, Traced, Held, Leading;
    TracedHolds(pages, c.nested, c.trace, pages(c.id).work, levels - 1);
    NothingLeftOutOfAny(pages, c.nested, levels - 1);
  }

  lemma {:induction false} NothingLeftOutOfAny(pages: Pages, nested: seq<Capture>, levels: nat)
    requires AllConsistent(pages, nested) && forall j :: 0 <= j < |nested| ==> Fine(pages, nested[j].id, levels)
    ensures AllHoldEveryFrame(pages, nested)
    decreases nested, 0
  {
    hide Fine, Consistent, HoldsEveryFrame;
    if nested != [] {
      NothingLeftOutOfAny(pages, nested[..|nested| - 1], levels);
      NothingLeftOut(pages, nested[|nested| - 1], levels);
    }
  }
}
