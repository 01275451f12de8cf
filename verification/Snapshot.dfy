/**
 The recursive snapshot of a document and the documents in its frames, over one shared
 budget. Documents refer to each other by identity and may refer back to themselves;
 only the frame depth ends the recursion.
 */
module Snapshot {
  import opened Text
  import opened Dom
  import opened Budget
  import opened Captures
  import opened Materialize
  import opened FrameOwners
  import Preflight
  import RepairDocument

  datatype Captured = Captured(frames: nat, html: Str, nodes: nat, payloadBytes: nat, subtreeNodes: nat, frameOwners: seq<Mapping>)

  // --- The account of a document in progress ---

  /** Since there were `base` committed documents, exactly those recorded as nested have
      been committed, with their nodes; their own bytes cover the bytes recorded. */
  ghost predicate Recorded(budget: SnapshotBudget, r: Reservation, pages: Pages, nested: seq<Capture>, base: nat)
    reads budget, r
  {
    && base <= |budget.committed|
    && r.nestedFrames == |budget.committed| - base == CountAll(nested)
    && r.nestedNodes == OwnNodesOf(budget.committed[base..]) == NodesInAll(pages, nested)
    && r.nestedPayloadBytes <= OwnBytesOf(budget.committed[base..])
    && AllConsistent(pages, nested)
  }

  /** What was committed or abandoned before stays, and the same reservations are open. */
  twostate predicate Surrounded(budget: SnapshotBudget, base: nat)
    requires base <= old(|budget.committed|)
    reads budget
  {
    && base <= |budget.committed| && budget.committed[..base] == old(budget.committed)[..base]
    && budget.open == old(budget.open) && old(budget.abandoned) <= budget.abandoned
  }

  lemma Bounded(budget: SnapshotBudget, r: Reservation, base: nat)
    requires budget.Valid() && budget.Holds(r) && base <= |budget.committed|
    requires r.nestedPayloadBytes <= OwnBytesOf(budget.committed[base..])
    ensures budget.MaximumDocumentBytes(r) <= budget.maximumPayloadBytes
  {
    BytesWith(budget.open, r);
    OwnSplits(budget.committed, base);
  }

  ghost function Levels(budget: SnapshotBudget, frameDepth: nat): nat {
    if frameDepth > budget.maximumFrameDepth then 0 else budget.maximumFrameDepth + 1 - frameDepth
  }

  /** The documents committed since are the captured ones: as many, with their nodes, and
      with own bytes that cover the payload. */
  ghost predicate PaidFor(since: seq<Document>, captured: Captured, pages: Pages, c: Capture) {
    && |since| == captured.frames == Count(c)
    && OwnNodesOf(since) == captured.subtreeNodes == NodesIn(pages, c)
    && captured.payloadBytes <= OwnBytesOf(since)
  }

  /** A nested snapshot is recorded with its parent. */
  lemma RecordedMore(before: seq<Document>, since: seq<Document>, base: nat)
    requires base <= |before|
    ensures (before + since)[base..] == before[base..] + since && (before + since)[..base] == before[..base]
    ensures OwnBytesOf((before + since)[base..]) == OwnBytesOf(before[base..]) + OwnBytesOf(since)
    ensures OwnNodesOf((before + since)[base..]) == OwnNodesOf(before[base..]) + OwnNodesOf(since)
  {
    assert (before + since)[base..] == before[base..] + since;
    OwnAppends(before[base..], since);
  }

  /** The document can be reserved. */
  ghost predicate Reservable(budget: SnapshotBudget, page: Page, frameDepth: nat)
    reads budget
  {
    && frameDepth <= budget.maximumFrameDepth && budget.remainingFrames >= 1
    && Preflight.ForestNodes(page.document) <= budget.remainingNodes
    && Preflight.ForestBytes(page.document) <= budget.remainingPayloadBytes
  }

  /** Copying the document throws at once. */
  ghost predicate Broken(page: Page) {
    page.work != [] && page.work[0].ThrowingWork?
  }

  /** The document's nodes and bytes and a frame are gone from what remains. */
  twostate predicate Spent(budget: SnapshotBudget, page: Page)
    reads budget
  {
    && budget.remainingNodes == old(budget.remainingNodes) - Preflight.ForestNodes(page.document)
    && budget.remainingPayloadBytes == old(budget.remainingPayloadBytes) - Preflight.ForestBytes(page.document)
    && budget.consumedFrames == old(budget.consumedFrames) + 1
  }

  /** What remains covers the load. */
  ghost predicate Covers(budget: SnapshotBudget, load: Load)
    reads budget
  {
    && budget.consumedFrames + load.frames <= budget.maximumFrames
    && load.nodes <= budget.remainingNodes && load.bytes <= budget.remainingPayloadBytes
  }

  /** No more than the load was taken from what remains. */
  twostate predicate Took(budget: SnapshotBudget, load: Load)
    reads budget
  {
    && budget.consumedFrames <= old(budget.consumedFrames) + load.frames
    && budget.remainingNodes >= old(budget.remainingNodes) - load.nodes
    && budget.remainingPayloadBytes >= old(budget.remainingPayloadBytes) - load.bytes
  }

  // --- Copying ---

  /** An inline frame: any exception but a limit is swallowed, whatever it left behind.
      What follows the recording of a nested snapshot may throw, but changes no count. */
  method CopyInlineFrame(budget: SnapshotBudget, r: Reservation, pages: Pages, frame: Work, frameDepth: nat,
                         inlineFrameOwners: map<nat, seq<Mapping>>, ghost nested: seq<Capture>, ghost base: nat)
    returns (thrown: Option<Thrown>, lists: map<nat, seq<Mapping>>, ghost captures: seq<Capture>, ghost slot: Slot)
    requires frame.FrameWork? && frameDepth <= budget.maximumFrameDepth
    requires budget.Valid() && budget.Holds(r) && Recorded(budget, r, pages, nested, base)
    requires Lists(pages, inlineFrameOwners, nested) && AllShallow(nested, budget.maximumFrameDepth - frameDepth)
    modifies budget, r
    ensures budget.Valid() && Surrounded(budget, base) && Recorded(budget, r, pages, captures, base) && Lists(pages, lists, captures)
    ensures AllShallow(captures, budget.maximumFrameDepth - frameDepth)
    ensures thrown.Some? ==> thrown.value.LimitThrown?
    ensures thrown.None? ==> Slotted(pages, slot, frame)
    ensures if slot.Entered? then |captures| == |nested| + 1 && captures[..|nested|] == nested && Fills(captures[|nested|], frame)
            else captures == nested && lists == inlineFrameOwners && unchanged(r)
    ensures r.allocatedPayloadBytes == old(r.allocatedPayloadBytes)
    ensures frame.content.Some? ==>
      var page := pages(frame.content.value);
      old(Reservable(budget, page, frameDepth + 1)) && Broken(page) ==> thrown.None? && slot == Failed && Spent(budget, page)
    ensures
      var levels := budget.maximumFrameDepth - frameDepth;
      WorkFine(pages, frame, levels) && old(Covers(budget, WorkCost(pages, frame, levels))) ==>
        thrown.None? && Took(budget, WorkCost(pages, frame, levels))
    decreases Levels(budget, frameDepth), 0
  {
    hide Listing, Lists, CountAll, NodesInAll, AllConsistent, AllShallow, OwnBytesOf, OwnNodesOf, BytesOf, NodesOf, budget.Valid,
         Preflight.ForestNodes, Preflight.ForestBytes, Throwable, Fine, Cost, TextOf, HoldsEveryFrame, OwnersOf, Encode;
    thrown, lists, captures, slot := None, inlineFrameOwners, nested, Unreachable;
    if frame.content.None? {
      return;
    }
    ghost var before := budget.committed;
    var child, error, capture := SnapshotDocument(budget, pages, frame.content.value, frameDepth + 1);
    if error.Some? {
      slot := Failed;
      if error.value.LimitThrown? {
        thrown := error;
      }
      return;
    }
    slot := Entered;
    ghost var since := budget.committed[|before|..];
    assert budget.committed == before + since;
    RecordedMore(before, since, base);
    budget.RecordNestedSnapshot(r, child.value.payloadBytes, child.value.subtreeNodes, child.value.frames);
    ghost var n := capture.(owner := frame.owner);
    OwnerIsApart(pages, capture, frame.owner);
    ListsMore(pages, lists, nested, n);
    ShallowMore(nested, n, budget.maximumFrameDepth - frameDepth);
    lists := lists[frame.owner := child.value.frameOwners];
    captures := nested + [n];
  }

  /** A canvas, a video, a stylesheet or any other work that may throw. */
  method CopyContent(budget: SnapshotBudget, r: Reservation, work: Work) returns (thrown: Option<Thrown>)
    requires !work.FrameWork? && budget.Valid() && budget.Holds(r) && budget.MaximumDocumentBytes(r) <= MAX_SAFE_INTEGER
    modifies budget, r
    ensures budget.Valid() && budget.Holds(r) && budget.Same(r)
    ensures thrown == Some(OtherThrown) ==> !Clean(work)
    ensures thrown.None? ==> Clean(work) && Gained(budget, r, KeptBytes(work))
    ensures work.ThrowingWork? ==> thrown == Some(OtherThrown) && unchanged(budget) && unchanged(r)
    ensures Calm(work) && Need(work) <= old(budget.remainingPayloadBytes) ==> thrown.None? && KeptBytes(work) <= Need(work)
  {
    hide Passes, JoinLines, AllRead, Encode, Extent, budget.Valid;
    thrown := None;
    match work
    case CanvasWork(canvas) => var _, t := CopyCanvas(budget, r, canvas); thrown := t;
    case VideoWork(video) => var _, t := MaterializeVideo(budget, r, video); thrown := t;
    case StylesheetWork(sheet, allocatePayload) =>
      var _, t := MaterializeCssRules(budget, r, sheet, allocatePayload);
      thrown := t;
    case ThrowingWork => thrown := Some(OtherThrown);
  }

  /** One piece of work inside a document, and what became of it. */
  method CopyWork(budget: SnapshotBudget, r: Reservation, pages: Pages, work: Work, frameDepth: nat,
                  inlineFrameOwners: map<nat, seq<Mapping>>, ghost nested: seq<Capture>, ghost base: nat)
    returns (thrown: Option<Thrown>, lists: map<nat, seq<Mapping>>, ghost captures: seq<Capture>, ghost slot: Slot)
    requires frameDepth <= budget.maximumFrameDepth
    requires budget.Valid() && budget.Holds(r) && Recorded(budget, r, pages, nested, base)
    requires Lists(pages, inlineFrameOwners, nested) && AllShallow(nested, budget.maximumFrameDepth - frameDepth)
    modifies budget, r
    ensures budget.Valid() && Surrounded(budget, base) && Recorded(budget, r, pages, captures, base) && Lists(pages, lists, captures)
    ensures AllShallow(captures, budget.maximumFrameDepth - frameDepth)
    ensures work.ThrowingWork? ==> thrown == Some(OtherThrown) && unchanged(budget) && unchanged(r)
    ensures thrown == Some(OtherThrown) ==> !Clean(work)
    ensures thrown.None? ==> Clean(work) && r.allocatedPayloadBytes == old(r.allocatedPayloadBytes) + KeptBytes(work)
    ensures thrown.None? ==> Slotted(pages, slot, work)
    ensures if slot.Entered? then |captures| == |nested| + 1 && captures[..|nested|] == nested && Fills(captures[|nested|], work)
            else captures == nested
    ensures
      var levels := budget.maximumFrameDepth - frameDepth;
      WorkFine(pages, work, levels) && old(Covers(budget, WorkCost(pages, work, levels))) ==>
        thrown.None? && Took(budget, WorkCost(pages, work, levels))
    decreases Levels(budget, frameDepth), 1
  {
    hide Listing, Lists, CountAll, NodesInAll, AllConsistent, AllShallow, OwnBytesOf, OwnNodesOf, BytesOf, NodesOf,
         Fills, Calm, Need, Throwable, Fine, Cost, budget.Valid;
    if work.FrameWork? {
      thrown, lists, captures, slot := CopyInlineFrame(budget, r, pages, work, frameDepth, inlineFrameOwners, nested, base);
    } else {
      Bounded(budget, r, base);
      Limited(budget);
      lists, captures, slot := inlineFrameOwners, nested, NoFrame;
      thrown := CopyContent(budget, r, work);
    }
  }

  /** All work of a document, up to the first exception that is not swallowed. What is
      allocated is what the work keeps, and a frame is left out only if it has no document
      to reach or one that throws. */
  method CopyAll(budget: SnapshotBudget, r: Reservation, pages: Pages, work: seq<Work>, frameDepth: nat, ghost base: nat)
    returns (thrown: Option<Thrown>, lists: map<nat, seq<Mapping>>, ghost captures: seq<Capture>, ghost trace: seq<Slot>)
    requires frameDepth <= budget.maximumFrameDepth
    requires budget.Valid() && budget.Holds(r) && Recorded(budget, r, pages, [], base)
    modifies budget, r
    ensures budget.Valid() && Surrounded(budget, base) && Recorded(budget, r, pages, captures, base) && Lists(pages, lists, captures)
    ensures AllShallow(captures, budget.maximumFrameDepth - frameDepth)
    ensures thrown.None? ==> Traced(pages, captures, trace, work)
    ensures thrown.None? ==> r.allocatedPayloadBytes == old(r.allocatedPayloadBytes) + AllKept(work)
    ensures thrown.None? ==> forall i :: 0 <= i < |work| ==> Clean(work[i])
    ensures thrown == Some(OtherThrown) ==> exists i :: 0 <= i < |work| && !Clean(work[i])
    ensures work != [] && work[0].ThrowingWork? ==> thrown == Some(OtherThrown) && unchanged(budget) && unchanged(r)
    ensures
      var levels := budget.maximumFrameDepth - frameDepth;
      AllFine(pages, work, levels) && old(Covers(budget, CostAll(pages, work, levels))) ==>
        thrown.None? && Took(budget, CostAll(pages, work, levels))
    decreases Levels(budget, frameDepth), 2
  {
    hide Listing, Lists, CountAll, NodesInAll, AllConsistent, AllShallow, OwnBytesOf, OwnNodesOf, BytesOf, NodesOf, budget.Valid,
         Fills, Slotted, Traced, Clean, KeptBytes, AllKept, WorkFine, WorkCost, AllFine, CostAll;
    thrown, lists, captures, trace := None, map[], [], [];
    NothingCopied(pages, budget.maximumFrameDepth - frameDepth);
    ghost var levels := budget.maximumFrameDepth - frameDepth;
    for index := 0 to |work|
      invariant budget.Valid() && Surrounded(budget, base) && Recorded(budget, r, pages, captures, base)
      invariant Lists(pages, lists, captures) && Traced(pages, captures, trace, work[..index])
      invariant AllShallow(captures, budget.maximumFrameDepth - frameDepth)
      invariant thrown.None? && (index == 0 ==> unchanged(budget) && unchanged(r)) && (index > 0 ==> !work[0].ThrowingWork?)
      invariant forall i :: 0 <= i < index ==> Clean(work[i])
      invariant r.allocatedPayloadBytes == old(r.allocatedPayloadBytes) + AllKept(work[..index])
      invariant AllFine(pages, work, levels) && old(Covers(budget, CostAll(pages, work, levels))) ==>
        Took(budget, CostAll(pages, work[..index], levels))
    {
      ghost var before, sofar := captures, trace;
      ghost var slot;
      CostsAddUp(pages, work, levels, index);
      AllKeptStep(work, index);
      assert work[..index + 1] == work[..index] + [work[index]];
      thrown, lists, captures, slot := CopyWork(budget, r, pages, work[index], frameDepth, lists, captures, base);
      if thrown.Some? {
        return;
      }
      TracedMore(pages, before, sofar, work[..index], slot, work[index]);
      trace := sofar + [slot];
      if slot.Entered? {
        assert captures == before + [captures[|before|]];
      }
    }
    assert work[..|work|] == work;
  }

  lemma NothingCopied(pages: Pages, levels: nat)
    ensures Lists(pages, map[], []) && Traced(pages, [], [], []) && AllShallow([], levels) && AllKept([]) == 0
    ensures CostAll(pages, [], levels) == Load(0, 0, 0)
  {
  }

  /** A document and everything in its frames. Whatever happens, the allowance is
      conserved and the reservations made here are committed or abandoned; an exception
      leaves something abandoned for good exactly when the document could be reserved. What
      comes out
      is the capture of a tree of documents: its frames, nodes and frame owners are those
      of the tree and were paid for, and its text is within its bytes. */
  method SnapshotDocument(budget: SnapshotBudget, pages: Pages, id: DocumentId, frameDepth: nat)
    returns (captured: Option<Captured>, thrown: Option<Thrown>, ghost capture: Capture)
    requires budget.Valid()
    modifies budget
    ensures budget.Valid() && budget.open == old(budget.open) && old(budget.committed) <= budget.committed
    ensures captured.Some? <==> thrown.None?
    ensures old(budget.abandoned) <= budget.abandoned
    ensures thrown.Some? ==> budget.committed == old(budget.committed)
    ensures thrown.Some? ==> (old(budget.abandoned) < budget.abandoned <==> old(Reservable(budget, pages(id), frameDepth)))
    ensures !old(Reservable(budget, pages(id), frameDepth)) ==> thrown.Some? && thrown.value.LimitThrown? && unchanged(budget)
    ensures old(Reservable(budget, pages(id), frameDepth)) && Broken(pages(id)) ==>
      thrown == Some(OtherThrown) && Spent(budget, pages(id))
    ensures captured.Some? ==>
      && PaidFor(budget.committed[|old(budget.committed)|..], captured.value, pages, capture)
      && capture.id == id && Consistent(pages, capture)
      && frameDepth <= budget.maximumFrameDepth && Shallow(capture, budget.maximumFrameDepth + 1 - frameDepth)
      && captured.value.frameOwners == Listing(OwnersOf(pages, capture))
      && Utf8Length(captured.value.html) <= captured.value.payloadBytes
      && captured.value.nodes == Preflight.ForestNodes(pages(id).document)
      && TextOf(pages(id), captured.value.html, captured.value.payloadBytes)
    ensures thrown == Some(OtherThrown) ==> Throwable(pages(id))
    ensures
      var levels := Levels(budget, frameDepth);
      Fine(pages, id, levels) && old(Covers(budget, Cost(pages, id, levels))) ==>
        captured.Some? && HoldsEveryFrame(pages, capture) && Took(budget, Cost(pages, id, levels))
    decreases Levels(budget, frameDepth), 4
  {
    hide Listing, PaidFor, Consistent, Shallow, OwnersOf, OwnBytesOf, OwnNodesOf, BytesOf, NodesOf,
         Preflight.ForestNodes, Preflight.ForestBytes, Encode, Throwable, Serializes, Size, AllFine, CostAll,
         HoldsEveryFrame, TextOf, budget.Valid;
    captured, thrown, capture := None, None, Capture(0, id, [], []);
    Limits(budget);
    var reservation, error := budget.ReserveDocument(pages(id).document, frameDepth);
    if error.Some? {
      thrown := Some(LimitThrown(error.value));
      return;
    }
    captured, thrown, capture := CopyReserved(budget, reservation.value, pages, id, frameDepth);
    if Fine(pages, id, Levels(budget, frameDepth)) && captured.Some? {
      NothingLeftOut(pages, capture, Levels(budget, frameDepth));
    }
  }

  /** A document that has been reserved: copy it and finish it, or abandon it. */
  method CopyReserved(budget: SnapshotBudget, r: Reservation, pages: Pages, id: DocumentId, frameDepth: nat)
    returns (captured: Option<Captured>, thrown: Option<Thrown>, ghost capture: Capture)
    requires budget.Valid() && budget.Holds(r) && frameDepth <= budget.maximumFrameDepth
    requires r.nodes == Preflight.ForestNodes(pages(id).document)
    requires r.nestedFrames == r.nestedNodes == r.nestedPayloadBytes == 0
    modifies budget, r
    ensures budget.Valid() && budget.open == old(budget.open) - {r} && old(budget.abandoned) <= budget.abandoned
    ensures captured.Some? <==> thrown.None?
    ensures thrown.Some? ==> r in budget.abandoned && budget.committed == old(budget.committed)
    ensures Broken(pages(id)) ==>
      && thrown == Some(OtherThrown) && budget.remainingNodes == old(budget.remainingNodes)
      && budget.remainingPayloadBytes == old(budget.remainingPayloadBytes) && budget.consumedFrames == old(budget.consumedFrames)
    ensures captured.Some? ==>
      && old(budget.committed) <= budget.committed
      && PaidFor(budget.committed[|old(budget.committed)|..], captured.value, pages, capture)
      && capture.id == id && Consistent(pages, capture) && Shallow(capture, budget.maximumFrameDepth + 1 - frameDepth)
      && captured.value.frameOwners == Listing(OwnersOf(pages, capture))
      && Utf8Length(captured.value.html) <= captured.value.payloadBytes && captured.value.nodes == r.nodes
      && TextOf(pages(id), captured.value.html, captured.value.payloadBytes)
    ensures thrown == Some(OtherThrown) ==> Throwable(pages(id))
    ensures
      var levels := budget.maximumFrameDepth - frameDepth;
      var load := Plus(Load(0, 0, Size(pages(id))), CostAll(pages, pages(id).work, levels));
      Fine(pages, id, levels + 1) && old(Covers(budget, load)) ==> captured.Some? && Took(budget, load)
    decreases Levels(budget, frameDepth), 3
  {
    hide Listing, Lists, Traced, Recorded, PaidFor, Consistent, Shallow, AllShallow, OwnersOf, OwnBytesOf, OwnNodesOf, BytesOf, NodesOf,
         Preflight.ForestNodes, Encode, Size, AllFine, CostAll, Clean, AllKept, budget.Valid,
         RepairDocument.DocumentOutcome;
    captured, capture := None, Capture(0, id, [], []);
    ghost var base := |budget.committed|;
    NothingRecorded(budget, r, pages);
    var lists; ghost var nested, trace;
    thrown, lists, nested, trace := CopyAll(budget, r, pages, pages(id).work, frameDepth, base);
    if thrown.Some? {
      budget.Abandon(r, base);
      return;
    }
    Assembled(budget, r, pages, id, nested, trace, base, frameDepth);
    if Fine(pages, id, budget.maximumFrameDepth - frameDepth + 1) && budget.MaximumDocumentBytes(r) >= Size(pages(id)) {
      SizeSuffices(pages(id), budget.MaximumDocumentBytes(r));
    }
    captured, thrown := FinishDocument(budget, r, pages, id, lists, nested, trace, base);
    capture := Capture(0, id, nested, trace);
  }

  lemma Assembled(budget: SnapshotBudget, r: Reservation, pages: Pages, id: DocumentId, nested: seq<Capture>, trace: seq<Slot>,
                  base: nat, frameDepth: nat)
    requires Recorded(budget, r, pages, nested, base) && Traced(pages, nested, trace, pages(id).work)
    requires frameDepth <= budget.maximumFrameDepth && AllShallow(nested, budget.maximumFrameDepth - frameDepth)
    ensures Consistent(pages, Capture(0, id, nested, trace))
    ensures Shallow(Capture(0, id, nested, trace), budget.maximumFrameDepth + 1 - frameDepth)
  {
  }

  lemma NothingRecorded(budget: SnapshotBudget, r: Reservation, pages: Pages)
    requires r.nestedFrames == r.nestedNodes == r.nestedPayloadBytes == 0
    ensures Recorded(budget, r, pages, [], |budget.committed|)
  {
    assert budget.committed[|budget.committed|..] == [];
  }

  /** List the frame owners, serialize the copy and commit what it takes. The serializer's
      limit is what the commit accepts, so the commit cannot refuse. */
  method FinishDocument(budget: SnapshotBudget, r: Reservation, pages: Pages, id: DocumentId, lists: map<nat, seq<Mapping>>,
                        ghost nested: seq<Capture>, ghost trace: seq<Slot>, ghost base: nat)
    returns (captured: Option<Captured>, thrown: Option<Thrown>)
    requires budget.Valid() && budget.Holds(r) && Recorded(budget, r, pages, nested, base) && Lists(pages, lists, nested)
    requires r.nodes == Preflight.ForestNodes(pages(id).document)
    modifies budget, r
    ensures budget.Valid() && budget.open == old(budget.open) - {r}
    ensures budget.abandoned == if captured.Some? then old(budget.abandoned) else old(budget.abandoned) + {r}
    ensures captured.Some? <==> thrown.None?
    ensures thrown.Some? ==> budget.committed == old(budget.committed)[..base]
    ensures budget.remainingNodes == old(budget.remainingNodes) && budget.consumedFrames == old(budget.consumedFrames)
    ensures
      var outcome := RepairDocument.DocumentOutcome(pages(id).clone, old(budget.MaximumDocumentBytes(r)), pages(id).reparse);
      && (captured.Some? <==> outcome.Serialized? && outcome.result.Ok?)
      && (thrown == Some(OtherThrown) <==> outcome.Threw?)
      && (captured.Some? ==> captured.value.html == outcome.result.value && captured.value.payloadBytes == outcome.result.bytes)
    ensures captured.Some? ==>
      budget.remainingPayloadBytes == old(budget.remainingPayloadBytes) + old(r.Bytes())
        - SnapshotBudget.OwnBytes(captured.value.payloadBytes, old(r.nestedPayloadBytes))
    ensures captured.Some? ==>
      && |budget.committed| == old(|budget.committed|) + 1 && budget.committed[..base] == old(budget.committed)[..base]
      && PaidFor(budget.committed[base..], captured.value, pages, Capture(0, id, nested, trace))
      && captured.value.frameOwners == Listing(OwnersOf(pages, Capture(0, id, nested, trace)))
      && captured.value.nodes == r.nodes && Utf8Length(captured.value.html) <= captured.value.payloadBytes
  {
    hide Listing, Lists, CountAll, NodesInAll, AllConsistent, OwnersOf, OwnBytesOf, OwnNodesOf, BytesOf, NodesOf,
         Preflight.ForestNodes, Encode, RepairDocument.DocumentOutcome, RepairDocument.NeedsRepair,
         RepairDocument.RepairedResult, budget.Valid;
    captured, thrown := None, None;
    var page := pages(id);
    var frameOwners := ListOwners(pages, id, lists, nested, trace);
    Bounded(budget, r, base);
    Limited(budget);
    var maximumDocumentBytes := budget.MaximumDocumentBytes(r);
    var serialized, _ := RepairDocument.SerializeDocumentWithRepair(page.clone, maximumDocumentBytes, page.reparse);
    if serialized.Threw? {
      thrown := Some(OtherThrown);
      budget.Abandon(r, base);
      return;
    }
    if serialized.result.Limit? {
      thrown := Some(LimitThrown(PayloadLimit(serialized.result.attempted, budget.maximumPayloadBytes)));
      budget.Abandon(r, base);
      return;
    }
    var report := CommitCapture(budget, r, pages, id, serialized.result.bytes, serialized.result.value, frameOwners, nested, trace, base);
    captured := Some(report);
  }

  /** The commit of a payload within the document's maximum, and the report. */
  method CommitCapture(budget: SnapshotBudget, r: Reservation, pages: Pages, id: DocumentId, payloadBytes: nat, html: Str,
                       frameOwners: seq<Mapping>, ghost nested: seq<Capture>, ghost trace: seq<Slot>, ghost base: nat)
    returns (captured: Captured)
    requires budget.Valid() && budget.Holds(r) && Recorded(budget, r, pages, nested, base)
    requires payloadBytes <= budget.MaximumDocumentBytes(r) && r.nodes == Preflight.ForestNodes(pages(id).document)
    modifies budget, r
    ensures budget.Valid() && budget.open == old(budget.open) - {r} && budget.abandoned == old(budget.abandoned)
    ensures budget.remainingNodes == old(budget.remainingNodes) && budget.consumedFrames == old(budget.consumedFrames)
    ensures budget.remainingPayloadBytes == old(budget.remainingPayloadBytes) + old(r.Bytes())
        - SnapshotBudget.OwnBytes(payloadBytes, old(r.nestedPayloadBytes))
    ensures |budget.committed| == old(|budget.committed|) + 1 && budget.committed[..base] == old(budget.committed)[..base]
    ensures PaidFor(budget.committed[base..], captured, pages, Capture(0, id, nested, trace))
    ensures captured.html == html && captured.payloadBytes == payloadBytes && captured.frameOwners == frameOwners
    ensures captured.nodes == r.nodes
  {
    hide CountAll, NodesInAll, AllConsistent, OwnBytesOf, OwnNodesOf, BytesOf, NodesOf, Preflight.ForestNodes, budget.Valid;
    ghost var before := budget.committed;
    var refused := budget.CommitDocument(r, payloadBytes);
    ghost var own := budget.committed[|before|];
    RecordedMore(before, [own], base);
    OwnOne([], own);
    assert [] + [own] == [own];
    NoDocuments();
    captured := Captured(r.nestedFrames + 1, html, r.nodes, payloadBytes, r.nodes + r.nestedNodes, frameOwners);
  }

  lemma NoDocuments()
    ensures OwnBytesOf([]) == OwnNodesOf([]) == 0
  {
  }

  lemma Limited(budget: SnapshotBudget)
    requires budget.Valid()
    ensures budget.maximumPayloadBytes <= MAX_SAFE_INTEGER
  {
  }

  /** The frame owner loop over the page's owners. */
  method ListOwners(pages: Pages, id: DocumentId, lists: map<nat, seq<Mapping>>, ghost nested: seq<Capture>, ghost trace: seq<Slot>)
    returns (frameOwners: seq<Mapping>)
    requires Lists(pages, lists, nested)
    ensures frameOwners == Listing(OwnersOf(pages, Capture(0, id, nested, trace)))
  {
    hide Listing, OwnersIn;
    var retained := pages(id).retained;
    var live := seq(|retained|, i requires 0 <= i < |retained| => LiveOwner(retained[i], if i in lists then lists[i] else []));
    NoOwners();
    frameOwners := CollectFrameOwners(live, OwnersOf(pages, Capture(0, id, nested, trace)));
  }

  lemma NoOwners()
    ensures Listing([]) == []
  {
  }

  /** A capture starts with the whole allowance: what comes out is within every limit and
      the host accepts its frame owners. */
  method TakeSnapshot(pages: Pages, id: DocumentId, frameDepth: nat, maximumNodes: nat, maximumPayloadBytes: nat,
                      maximumFrames: nat, maximumFrameDepth: nat)
    returns (captured: Option<Captured>, thrown: Option<Thrown>, ghost capture: Capture)
    requires 1 <= maximumPayloadBytes <= MAX_SAFE_INTEGER
    ensures captured.Some? <==> thrown.None?
    ensures captured.Some? ==>
      && Utf8Length(captured.value.html) <= captured.value.payloadBytes <= maximumPayloadBytes
      && captured.value.nodes == Preflight.ForestNodes(pages(id).document)
      && captured.value.subtreeNodes == NodesIn(pages, capture) <= maximumNodes
      && captured.value.frames == Count(capture) <= maximumFrames
      && capture.id == id && Consistent(pages, capture)
      && frameDepth <= maximumFrameDepth && Shallow(capture, maximumFrameDepth + 1 - frameDepth)
      && captured.value.frameOwners == Listing(OwnersOf(pages, capture))
      && AllWellFormed(captured.value.frameOwners)
      && DistinctOriginals(captured.value.frameOwners) && DistinctRetained(captured.value.frameOwners)
      && TextOf(pages(id), captured.value.html, captured.value.payloadBytes)
    ensures
      var levels := if frameDepth > maximumFrameDepth then 0 else maximumFrameDepth + 1 - frameDepth;
      Fine(pages, id, levels) && AtMost(Cost(pages, id, levels), Load(maximumFrames, maximumNodes, maximumPayloadBytes)) ==>
        captured.Some? && HoldsEveryFrame(pages, capture)
  {
    hide Listing, OwnersOf, AllWellFormed, DistinctOriginals, DistinctRetained, Preflight.ForestNodes, Encode,
         OwnBytesOf, OwnNodesOf, BytesOf, NodesOf, Consistent, Count, NodesIn, Shallow, Fine, Cost, HoldsEveryFrame, TextOf;
    var budget := new SnapshotBudget(maximumNodes, maximumPayloadBytes, maximumFrames, maximumFrameDepth);
    captured, thrown, capture := SnapshotDocument(budget, pages, id, frameDepth);
    if captured.Some? {
      assert budget.committed[0..] == budget.committed;
      ListingAccepted(OwnersOf(pages, capture));
    }
  }

  /** A frame whose copy throws at once costs its whole reservation although nothing of it
      is kept: the parent, with this frame as its only work, is captured alone, and its
      nodes, bytes and frame as well as the child's are gone. */
  method BrokenFrameStaysPaidFor(budget: SnapshotBudget, pages: Pages, parent: DocumentId, child: DocumentId, owner: nat, frameDepth: nat)
    returns (captured: Option<Captured>, thrown: Option<Thrown>)
    requires budget.Valid() && frameDepth < budget.maximumFrameDepth && budget.remainingFrames >= 2
    requires
      Preflight.ForestNodes(pages(parent).document) + Preflight.ForestNodes(pages(child).document) <= budget.remainingNodes
    requires Preflight.ForestBytes(pages(parent).document) + Preflight.ForestBytes(pages(child).document) <= budget.remainingPayloadBytes
    requires Broken(pages(child)) && pages(parent).work == [FrameWork(owner, Some(child))]
    requires
      var outcome := RepairDocument.DocumentOutcome(
        pages(parent).clone, budget.remainingPayloadBytes - Preflight.ForestBytes(pages(child).document), pages(parent).reparse);
      outcome.Serialized? && outcome.result.Ok?
    modifies budget
    ensures budget.Valid() && captured.Some? && captured.value.frames == 1
    ensures captured.value.subtreeNodes == Preflight.ForestNodes(pages(parent).document)
    ensures budget.remainingNodes == old(budget.remainingNodes)
      - Preflight.ForestNodes(pages(parent).document) - Preflight.ForestNodes(pages(child).document)
    ensures budget.remainingPayloadBytes == old(budget.remainingPayloadBytes)
      - captured.value.payloadBytes - Preflight.ForestBytes(pages(child).document)
    ensures budget.consumedFrames == old(budget.consumedFrames) + 2
  {
    hide Listing, Lists, OwnersOf, OwnBytesOf, OwnNodesOf, BytesOf, NodesOf, Preflight.ForestNodes,
         Preflight.ForestBytes, Encode, RepairDocument.DocumentOutcome, budget.Valid;
    var page := pages(parent);
    Limits(budget);
    var reservation, error := budget.ReserveDocument(page.document, frameDepth);
    var r := reservation.value;
    ghost var base := |budget.committed|;
    NothingRecorded(budget, r, pages);
    NothingCopied(pages, budget.maximumFrameDepth - frameDepth);
    Limits(budget);
    ghost var nested, slot;
    var lists;
    thrown, lists, nested, slot := CopyInlineFrame(budget, r, pages, page.work[0], frameDepth, map[], [], base);
    captured, thrown := FinishDocument(budget, r, pages, parent, lists, nested, [slot], base);
  }

  lemma Limits(budget: SnapshotBudget)
    requires budget.Valid()
    ensures budget.remainingFrames + budget.consumedFrames == budget.maximumFrames
  {
  }
}
