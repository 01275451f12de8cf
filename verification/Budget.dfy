/**
 The shared allowance of a recursive snapshot. Bytes are reserved for a document,
 allocated on top of it, settled and finally committed; what happens to a reservation
 that an exception abandons is only visible in the ledger.
 */
module Budget {
  import opened Text
  import opened Dom
  import Preflight

  datatype LimitError =
    | FrameDepth(attempted: int, limit: nat)
    | FrameLimit(attempted: int, limit: nat)
    | NodeLimit(attempted: int, limit: nat)
    | PayloadLimit(attempted: int, limit: nat)

  /** A thrown exception: a limit error aborts the whole snapshot, any other can be
      swallowed by the enclosing document. */
  datatype Thrown = LimitThrown(error: LimitError) | OtherThrown

  class Reservation {
    var allocatedPayloadBytes: nat
    var nestedFrames: nat
    var nestedNodes: nat
    var nestedPayloadBytes: nat
    const nodes: nat
    const sourcePayloadBytes: nat

    constructor (nodes: nat, sourcePayloadBytes: nat)
      ensures this.nodes == nodes && this.sourcePayloadBytes == sourcePayloadBytes
      ensures allocatedPayloadBytes == nestedFrames == nestedNodes == nestedPayloadBytes == 0
    {
      this.nodes, this.sourcePayloadBytes := nodes, sourcePayloadBytes;
      allocatedPayloadBytes, nestedFrames, nestedNodes, nestedPayloadBytes := 0, 0, 0, 0;
    }

    ghost function Bytes(): nat
      reads this
    {
      sourcePayloadBytes + allocatedPayloadBytes
    }
  }

  // --- What reservations and documents claim ---

  /** Source and allocated bytes of reservations. */
  ghost function BytesOf(rs: set<Reservation>): nat
    reads rs
  {
    if rs == {} then 0
    else
      var r :| r in rs;
      r.Bytes() + BytesOf(rs - {r})
  }

  ghost function NodesOf(rs: set<Reservation>): nat {
    if rs == {} then 0
    else
      var r :| r in rs;
      r.nodes + NodesOf(rs - {r})
  }

  lemma {:induction false} BytesWith(rs: set<Reservation>, r: Reservation)
    requires r in rs
    ensures BytesOf(rs) == r.Bytes() + BytesOf(rs - {r})
    decreases rs
  {
    var k :| k in rs && BytesOf(rs) == k.Bytes() + BytesOf(rs - {k});
    if k != r {
      BytesWith(rs - {k}, r);
      BytesWith(rs - {r}, k);
      assert rs - {k} - {r} == rs - {r} - {k};
    }
  }

  lemma {:induction false} NodesWith(rs: set<Reservation>, r: Reservation)
    requires r in rs
    ensures NodesOf(rs) == r.nodes + NodesOf(rs - {r})
    decreases rs
  {
    var k :| k in rs && NodesOf(rs) == k.nodes + NodesOf(rs - {k});
    if k != r {
      NodesWith(rs - {k}, r);
      NodesWith(rs - {r}, k);
      assert rs - {k} - {r} == rs - {r} - {k};
    }
  }

  lemma Added(rs: set<Reservation>, r: Reservation)
    requires r !in rs
    ensures BytesOf(rs + {r}) == BytesOf(rs) + r.Bytes() && NodesOf(rs + {r}) == NodesOf(rs) + r.nodes
    ensures |rs + {r}| == |rs| + 1
  {
    BytesWith(rs + {r}, r);
    NodesWith(rs + {r}, r);
    assert rs + {r} - {r} == rs;
  }

  lemma Removed(rs: set<Reservation>, r: Reservation)
    requires r in rs
    ensures BytesOf(rs) == r.Bytes() + BytesOf(rs - {r}) && NodesOf(rs) == r.nodes + NodesOf(rs - {r})
    ensures |rs| == |rs - {r}| + 1
  {
    BytesWith(rs, r);
    NodesWith(rs, r);
  }

  /** A committed document: what its payload adds to its nested documents, and its nodes. */
  datatype Document = Document(ownBytes: nat, nodes: nat)

  ghost function OwnBytesOf(ds: seq<Document>): nat {
    if ds == [] then 0 else OwnBytesOf(ds[..|ds| - 1]) + ds[|ds| - 1].ownBytes
  }

  ghost function OwnNodesOf(ds: seq<Document>): nat {
    if ds == [] then 0 else OwnNodesOf(ds[..|ds| - 1]) + ds[|ds| - 1].nodes
  }

  lemma {:induction false} OwnSplits(ds: seq<Document>, k: nat)
    requires k <= |ds|
    ensures OwnBytesOf(ds) == OwnBytesOf(ds[..k]) + OwnBytesOf(ds[k..])
    ensures OwnNodesOf(ds) == OwnNodesOf(ds[..k]) + OwnNodesOf(ds[k..])
    decreases |ds|
  {
    if k == |ds| {
      assert ds[..k] == ds && ds[k..] == [];
    } else {
      var front := ds[..|ds| - 1];
      OwnSplits(front, k);
      assert front[..k] == ds[..k] && front[k..] == ds[k..][..|ds| - k - 1];
    }
  }

  lemma OwnAppends(ds: seq<Document>, es: seq<Document>)
    ensures OwnBytesOf(ds + es) == OwnBytesOf(ds) + OwnBytesOf(es) && OwnNodesOf(ds + es) == OwnNodesOf(ds) + OwnNodesOf(es)
  {
    OwnSplits(ds + es, |ds|);
    assert (ds + es)[..|ds|] == ds && (ds + es)[|ds|..] == es;
  }

  lemma OwnOne(ds: seq<Document>, d: Document)
    ensures OwnBytesOf(ds + [d]) == OwnBytesOf(ds) + d.ownBytes && OwnNodesOf(ds + [d]) == OwnNodesOf(ds) + d.nodes
  {
    assert (ds + [d])[..|ds|] == ds;
  }

  class SnapshotBudget {
    const maximumFrameDepth: nat
    const maximumFrames: nat
    const maximumPayloadBytes: nat
    ghost const maximumNodes: nat
    var consumedFrames: nat
    var remainingFrames: nat
    var remainingNodes: nat
    var remainingPayloadBytes: nat
    // Reservations in use and those an exception left behind; documents committed and
    // still part of the capture, and those committed inside a document that was abandoned.
    ghost var open: set<Reservation>
    ghost var abandoned: set<Reservation>
    ghost var committed: seq<Document>
    ghost var lost: seq<Document>

    /** Conservation: what remains, the source and allocated bytes of open and abandoned
        reservations and the own bytes of committed documents make up the allowance, and
        likewise for nodes and frames. */
    ghost predicate Valid()
      reads this, open, abandoned
    {
      && maximumPayloadBytes <= MAX_SAFE_INTEGER && open !! abandoned
      && remainingPayloadBytes + BytesOf(open) + BytesOf(abandoned) + OwnBytesOf(committed) + OwnBytesOf(lost)
         == maximumPayloadBytes
      && remainingNodes + NodesOf(open) + NodesOf(abandoned) + OwnNodesOf(committed) + OwnNodesOf(lost) == maximumNodes
      && consumedFrames == |open| + |abandoned| + |committed| + |lost| && remainingFrames + consumedFrames == maximumFrames
    }

    /** The reservation is in use. */
    ghost predicate Holds(r: Reservation)
      reads this
    {
      r in open
    }

    constructor (maximumNodes: nat, maximumPayloadBytes: nat, maximumFrames: nat, maximumFrameDepth: nat)
      requires maximumPayloadBytes <= MAX_SAFE_INTEGER
      ensures Valid() && open == abandoned == {} && committed == lost == []
      ensures this.maximumNodes == maximumNodes && this.maximumPayloadBytes == maximumPayloadBytes
      ensures this.maximumFrames == maximumFrames && this.maximumFrameDepth == maximumFrameDepth
      ensures consumedFrames == 0 && remainingFrames == maximumFrames
      ensures remainingNodes == maximumNodes && remainingPayloadBytes == maximumPayloadBytes
    {
      this.maximumFrameDepth, this.maximumFrames := maximumFrameDepth, maximumFrames;
      this.maximumPayloadBytes, this.maximumNodes := maximumPayloadBytes, maximumNodes;
      consumedFrames, remainingFrames := 0, maximumFrames;
      remainingNodes, remainingPayloadBytes := maximumNodes, maximumPayloadBytes;
      open, abandoned, committed, lost := {}, {}, [], [];
    }

    /** Reserve a document: exactly its recursive node and byte totals, if the depth, a
        frame, the nodes and the bytes are all there; otherwise nothing changes. */
    method ReserveDocument(document: seq<Node>, frameDepth: nat)
      returns (reservation: Option<Reservation>, error: Option<LimitError>)
      requires Valid()
      modifies this
      ensures Valid()
      ensures reservation.Some? <==> error.None?
      ensures reservation.Some? <==>
        && frameDepth <= maximumFrameDepth && old(remainingFrames) >= 1
        && Preflight.ForestNodes(document) <= old(remainingNodes)
        && Preflight.ForestBytes(document) <= old(remainingPayloadBytes)
      ensures reservation.None? ==> unchanged(this) && Explains(error.value, document, frameDepth)
      ensures reservation.Some? ==>
        var r := reservation.value;
        && fresh(r) && open == old(open) + {r}
        && r.nodes == Preflight.ForestNodes(document) && r.sourcePayloadBytes == Preflight.ForestBytes(document)
        && r.allocatedPayloadBytes == r.nestedFrames == r.nestedNodes == r.nestedPayloadBytes == 0
        && remainingPayloadBytes == old(remainingPayloadBytes) - r.sourcePayloadBytes
        && remainingNodes == old(remainingNodes) - r.nodes
        && consumedFrames == old(consumedFrames) + 1
        && abandoned == old(abandoned) && committed == old(committed) && lost == old(lost)
    {
      hide BytesOf, NodesOf, OwnBytesOf, OwnNodesOf, Preflight.ForestNodes, Preflight.ForestBytes, Preflight.Scan,
           Preflight.VisitAll;
      reservation, error := None, None;
      if frameDepth > maximumFrameDepth {
        error := Some(FrameDepth(frameDepth, maximumFrameDepth));
        return;
      }
      if remainingFrames < 1 {
        error := Some(FrameLimit(consumedFrames + 1, maximumFrames));
        return;
      }
      var measured := Preflight.PreflightDocumentWithinLimits(document, remainingNodes, remainingPayloadBytes);
      Preflight.PreflightDecides(document, remainingNodes, remainingPayloadBytes);
      match measured
      case TooManyNodes(attempted) => error := Some(NodeLimit(attempted, remainingNodes));
      case TooManyBytes(attempted) =>
        error := Some(PayloadLimit(maximumPayloadBytes - remainingPayloadBytes + attempted, maximumPayloadBytes));
      case Fits(nodes, payloadBytes) =>
        var r := Claim(nodes, payloadBytes);
        reservation := Some(r);
    }

    /** Take a frame, nodes and bytes that are there. */
    method Claim(nodes: nat, payloadBytes: nat) returns (r: Reservation)
      requires Valid() && remainingFrames >= 1 && nodes <= remainingNodes && payloadBytes <= remainingPayloadBytes
      modifies this
      ensures Valid() && fresh(r) && open == old(open) + {r}
      ensures r.nodes == nodes && r.sourcePayloadBytes == payloadBytes
      ensures r.allocatedPayloadBytes == r.nestedFrames == r.nestedNodes == r.nestedPayloadBytes == 0
      ensures remainingPayloadBytes == old(remainingPayloadBytes) - payloadBytes && remainingNodes == old(remainingNodes) - nodes
      ensures consumedFrames == old(consumedFrames) + 1
      ensures abandoned == old(abandoned) && committed == old(committed) && lost == old(lost)
    {
      hide BytesOf, NodesOf, OwnBytesOf, OwnNodesOf;
      consumedFrames := consumedFrames + 1;
      remainingFrames := remainingFrames - 1;
      remainingNodes := remainingNodes - nodes;
      remainingPayloadBytes := remainingPayloadBytes - payloadBytes;
      r := new Reservation(nodes, payloadBytes);
      Added(open, r);
      open := open + {r};
    }

    /** A refusal names a limit that is exceeded and by how much at least. */
    ghost predicate Explains(error: LimitError, document: seq<Node>, frameDepth: nat)
      reads this
    {
      match error
      case FrameDepth(attempted, limit) => attempted == frameDepth > limit == maximumFrameDepth
      case FrameLimit(attempted, limit) => attempted == maximumFrames + 1 && limit == maximumFrames && remainingFrames == 0
      case NodeLimit(attempted, limit) =>
        attempted == remainingNodes + 1 && limit == remainingNodes && Preflight.ForestNodes(document) > limit
      case PayloadLimit(attempted, limit) =>
        attempted == maximumPayloadBytes + 1 && limit == maximumPayloadBytes
        && Preflight.ForestBytes(document) > remainingPayloadBytes
    }

    method RecordNestedSnapshot(r: Reservation, payloadBytes: nat, nodes: nat, frames: nat)
      requires Valid() && Holds(r)
      modifies r
      ensures Valid() && r.allocatedPayloadBytes == old(r.allocatedPayloadBytes)
      ensures r.nestedPayloadBytes == old(r.nestedPayloadBytes) + payloadBytes
      ensures r.nestedNodes == old(r.nestedNodes) + nodes && r.nestedFrames == old(r.nestedFrames) + frames
    {
      hide BytesOf, NodesOf, OwnBytesOf, OwnNodesOf;
      BytesWith(open, r);
      r.nestedPayloadBytes := r.nestedPayloadBytes + payloadBytes;
      r.nestedNodes := r.nestedNodes + nodes;
      r.nestedFrames := r.nestedFrames + frames;
      BytesWith(open, r);
    }

    function MaximumDocumentBytes(r: Reservation): nat
      reads this, r
    {
      r.allocatedPayloadBytes + r.nestedPayloadBytes + r.sourcePayloadBytes + remainingPayloadBytes
    }

    /** Allocate more for a reservation, all or nothing. */
    method ReservePayloadAllocation(r: Reservation, payloadBytes: int) returns (thrown: Option<Thrown>)
      requires Valid() && Holds(r)
      modifies this, r
      ensures Valid() && Holds(r) && Same(r)
      ensures thrown.None? <==> 0 <= payloadBytes <= old(remainingPayloadBytes)
      ensures thrown.Some? ==> unchanged(this) && unchanged(r)
      ensures thrown.Some? ==> (thrown.value.LimitThrown? <==> 0 <= payloadBytes <= MAX_SAFE_INTEGER)
      ensures thrown.Some? && thrown.value.LimitThrown? ==>
        thrown.value.error == PayloadLimit(maximumPayloadBytes - remainingPayloadBytes + payloadBytes, maximumPayloadBytes)
      ensures thrown.None? ==> Moved(payloadBytes) && r.allocatedPayloadBytes == old(r.allocatedPayloadBytes) + payloadBytes
    {
      hide BytesOf, NodesOf, OwnBytesOf, OwnNodesOf;
      if !IsSafeInteger(payloadBytes) || payloadBytes < 0 {
        return Some(OtherThrown);
      }
      if payloadBytes > remainingPayloadBytes {
        return Some(LimitThrown(PayloadLimit(maximumPayloadBytes - remainingPayloadBytes + payloadBytes, maximumPayloadBytes)));
      }
      BytesWith(open, r);
      remainingPayloadBytes := remainingPayloadBytes - payloadBytes;
      r.allocatedPayloadBytes := r.allocatedPayloadBytes + payloadBytes;
      BytesWith(open, r);
      return None;
    }

    /** Only the allocation of the reservation may have changed. */
    twostate predicate Same(r: Reservation)
      reads this, r
    {
      && r.nestedFrames == old(r.nestedFrames) && r.nestedNodes == old(r.nestedNodes)
      && r.nestedPayloadBytes == old(r.nestedPayloadBytes)
      && remainingNodes == old(remainingNodes) && consumedFrames == old(consumedFrames)
      && open == old(open) && abandoned == old(abandoned) && committed == old(committed) && lost == old(lost)
    }

    /** `bytes` were taken from what remains. */
    twostate predicate Moved(bytes: int)
      reads this
    {
      remainingPayloadBytes == old(remainingPayloadBytes) - bytes
    }

    /** Replace `reservedBytes` of the allocation by `actualBytes`. */
    method SettlePayloadAllocation(r: Reservation, reservedBytes: int, actualBytes: int) returns (thrown: Option<Thrown>)
      requires Valid() && Holds(r)
      modifies this, r
      ensures Valid() && Holds(r) && Same(r)
      ensures thrown.None? <==>
        0 <= reservedBytes <= old(r.allocatedPayloadBytes) && reservedBytes <= MAX_SAFE_INTEGER
        && 0 <= actualBytes <= MAX_SAFE_INTEGER && actualBytes - reservedBytes <= old(remainingPayloadBytes)
      ensures thrown.Some? ==> unchanged(this) && unchanged(r)
      ensures thrown.None? ==>
        && Moved(actualBytes - reservedBytes)
        && r.allocatedPayloadBytes == old(r.allocatedPayloadBytes) - reservedBytes + actualBytes
    {
      hide BytesOf, NodesOf, OwnBytesOf, OwnNodesOf;
      if !IsSafeInteger(reservedBytes) || reservedBytes < 0 || !IsSafeInteger(actualBytes) || actualBytes < 0
         || reservedBytes > r.allocatedPayloadBytes {
        return Some(OtherThrown);
      }
      if actualBytes > reservedBytes {
        thrown := ReservePayloadAllocation(r, actualBytes - reservedBytes);
        return;
      }
      BytesWith(open, r);
      var released := reservedBytes - actualBytes;
      remainingPayloadBytes := remainingPayloadBytes + released;
      r.allocatedPayloadBytes := r.allocatedPayloadBytes - released;
      BytesWith(open, r);
      return None;
    }

    /** A document's own bytes: what its payload adds to its nested documents. */
    static function OwnBytes(payloadBytes: nat, nestedPayloadBytes: nat): nat {
      if payloadBytes > nestedPayloadBytes then payloadBytes - nestedPayloadBytes else 0
    }

    /** Commit turns the reservation's bytes into the document's own bytes. It accepts
        exactly the payloads up to `MaximumDocumentBytes`. */
    method CommitDocument(r: Reservation, payloadBytes: nat) returns (thrown: Option<Thrown>)
      requires Valid() && Holds(r)
      modifies this, r
      ensures Valid()
      ensures thrown.None? <==> payloadBytes <= old(MaximumDocumentBytes(r))
      ensures thrown.Some? ==> thrown.value.LimitThrown? && unchanged(this) && unchanged(r)
      ensures thrown.None? ==>
        var own := OwnBytes(payloadBytes, old(r.nestedPayloadBytes));
        && open == old(open) - {r} && abandoned == old(abandoned)
        && committed == old(committed) + [Document(own, r.nodes)] && lost == old(lost)
        && r.allocatedPayloadBytes == 0
        && r.nestedFrames == old(r.nestedFrames) && r.nestedNodes == old(r.nestedNodes)
        && remainingPayloadBytes == old(remainingPayloadBytes) + old(r.Bytes()) - own
        && remainingNodes == old(remainingNodes) && consumedFrames == old(consumedFrames)
    {
      hide BytesOf, NodesOf, OwnBytesOf, OwnNodesOf;
      var documentPayload: int := payloadBytes - r.nestedPayloadBytes;
      var ownPayloadBytes := if documentPayload > 0 then documentPayload else 0;
      var adjustment := ownPayloadBytes - r.sourcePayloadBytes;
      var availablePayloadBytes := remainingPayloadBytes + r.allocatedPayloadBytes;
      if adjustment > availablePayloadBytes {
        return Some(LimitThrown(PayloadLimit(maximumPayloadBytes - availablePayloadBytes + adjustment, maximumPayloadBytes)));
      }
      Removed(open, r);
      OwnOne(committed, Document(ownPayloadBytes, r.nodes));
      open := open - {r};
      committed := committed + [Document(ownPayloadBytes, r.nodes)];
      remainingPayloadBytes := availablePayloadBytes - adjustment;
      r.allocatedPayloadBytes := 0;
      return None;
    }

    /** An exception leaves the reservation behind, and the documents committed inside it
        since there were `since`; nothing of them is ever given back. */
    ghost method Abandon(r: Reservation, since: nat)
      requires Valid() && Holds(r) && since <= |committed|
      modifies this`open, this`abandoned, this`committed, this`lost
      ensures Valid()
      ensures open == old(open) - {r} && abandoned == old(abandoned) + {r}
      ensures committed == old(committed)[..since] && lost == old(lost) + old(committed)[since..]
    {
      hide BytesOf, NodesOf, OwnBytesOf, OwnNodesOf;
      Removed(open, r);
      Added(abandoned, r);
      OwnSplits(committed, since);
      OwnAppends(lost, committed[since..]);
      open, abandoned := open - {r}, abandoned + {r};
      committed, lost := committed[..since], lost + committed[since..];
    }
  }
}
