/**
 The host's side of a transfer: a plan that fixes the number and length of the chunks,
 and an assembler that takes them in order.
 */
module Transfer {
  import opened Text
  import opened FrameOwners
  import opened Observations
  import Sha256
  import Crc32

  datatype Error =
    | ProtocolShape
    | ChunkLimit
    | PayloadLimit
    | ChunkTotal
    | ChunkOwner
    | ChunkSequence
    | ChunkLengthError
    | ChunkChecksum
    | PayloadChecksum
    | CallFailed

  datatype Result<+T> = Ok(value: T) | Err(error: Error)

  datatype Plan = Plan(captureId: Str, frameId: int, chunks: nat, encodedBytes: nat, payloadSha256: Str, maximumChunkBytes: nat)

  ghost predicate ValidPlan(p: Plan) {
    p.maximumChunkBytes >= 1 && p.chunks == ChunkCount(p.encodedBytes, p.maximumChunkBytes) && p.chunks < 0x1_0000_0000
  }

  /** A plan exists exactly for a descriptor of the expected frame whose size is allowed
      and whose chunk count follows from it. */
  function NewPlan(descriptor: Descriptor, captureId: Str, frameId: int, maximumChunkBytes: nat, maximumPayloadBytes: nat)
    : (r: Result<Plan>)
    ensures r.Ok? <==>
      && descriptor.captureId == captureId && descriptor.frameId == frameId && maximumChunkBytes >= 1
      && descriptor.encodedBytes <= maximumPayloadBytes
      && descriptor.chunks == ChunkCount(descriptor.encodedBytes, maximumChunkBytes) < 0x1_0000_0000
    ensures r.Ok? ==> ValidPlan(r.value)
    ensures r.Ok? ==> r.value.encodedBytes == descriptor.encodedBytes && r.value.payloadSha256 == descriptor.payloadSha256
    ensures r.Ok? ==> r.value.captureId == captureId && r.value.frameId == frameId && r.value.maximumChunkBytes == maximumChunkBytes
  {
    if descriptor.captureId != captureId || descriptor.frameId != frameId then Err(ProtocolShape)
    else if maximumChunkBytes == 0 then Err(ChunkLimit)
    else if descriptor.encodedBytes > maximumPayloadBytes then Err(PayloadLimit)
    else
      var divided := (descriptor.encodedBytes + maximumChunkBytes - 1) / maximumChunkBytes;
      var expected := if divided > 1 then divided else 1;
      if expected >= 0x1_0000_0000 then Err(ChunkTotal)
      else if descriptor.chunks != expected then Err(ChunkTotal)
      else Ok(Plan(captureId, frameId, descriptor.chunks, descriptor.encodedBytes, descriptor.payloadSha256, maximumChunkBytes))
  }

  function ValidateChunk(chunk: Chunk, maximumChunkBytes: nat): Option<Error> {
    if chunk.total == 0 || chunk.sequence >= chunk.total then Some(ChunkSequence)
    else if chunk.payloadLength != |chunk.payload| then Some(ChunkLengthError)
    else if chunk.payloadLength > maximumChunkBytes then Some(ChunkLimit)
    else if chunk.payloadCrc32 != Crc32.Checksum(chunk.payload) then Some(ChunkChecksum)
    else None
  }

  /** The chunk is the next one the plan expects. */
  ghost predicate Expected(p: Plan, next: nat, chunk: Chunk)
    requires ValidPlan(p)
  {
    && chunk.captureId == p.captureId && chunk.frameId == p.frameId && chunk.total == p.chunks
    && chunk.sequence == next < p.chunks
    && chunk.payloadLength == |chunk.payload| == ChunkLength(p.encodedBytes, p.maximumChunkBytes, next)
    && chunk.payloadLength <= p.maximumChunkBytes
    && chunk.payloadCrc32 == Crc32.Checksum(chunk.payload)
  }

  /** A chunk whose payload was changed within four consecutive bytes on the way is not
      taken. */
  lemma DamagedChunkRefused(p: Plan, next: nat, chunk: Chunk, damaged: seq<Byte>, start: nat)
    requires ValidPlan(p) && Expected(p, next, chunk) && |damaged| == |chunk.payload| && damaged != chunk.payload
    requires forall i :: 0 <= i < |damaged| && !(start <= i < start + 4) ==> damaged[i] == chunk.payload[i]
    ensures !Expected(p, next, chunk.(payload := damaged))
    ensures ValidateChunk(chunk.(payload := damaged), p.maximumChunkBytes) == Some(ChunkChecksum)
  {
    hide Crc32.Checksum, ChunkCount, ChunkLength;
    Crc32.BurstDetected(damaged, chunk.payload, start);
  }

  class ChunkAssembler {
    const plan: Plan
    var nextSequence: nat
    var payload: seq<Byte>
    var complete: bool

    /** Before completion, the payload holds every chunk taken, each of its full length. */
    ghost predicate Valid()
      reads this
    {
      && ValidPlan(plan) && nextSequence <= plan.chunks
      && (complete ==> nextSequence == plan.chunks)
      && (nextSequence < plan.chunks ==> |payload| == nextSequence * plan.maximumChunkBytes)
    }

    constructor (plan: Plan)
      requires ValidPlan(plan)
      ensures Valid() && this.plan == plan && nextSequence == 0 && payload == [] && !complete
    {
      this.plan, nextSequence, payload, complete := plan, 0, [], false;
    }

    /** A chunk is taken exactly when it is the expected one; the payload is handed out
        with the last, exactly when its digest is the planned one. Nothing that is handed
        out has another length or digest than the plan's, whatever the chunks were. */
    method Push(chunk: Chunk) returns (r: Result<Option<seq<Byte>>>)
      requires Valid()
      modifies this
      ensures Valid()
      ensures !(!old(complete) && Expected(plan, old(nextSequence), chunk)) ==> r.Err? && unchanged(this)
      ensures !old(complete) && Expected(plan, old(nextSequence), chunk) ==>
        var taken := old(payload) + chunk.payload;
        && nextSequence == old(nextSequence) + 1
        && (nextSequence < plan.chunks ==> r == Ok(None) && payload == taken && !complete)
        && (nextSequence == plan.chunks && Sha256.Hex(Sha256.Digest(taken)) == plan.payloadSha256 ==>
              r == Ok(Some(taken)) && complete)
        && (nextSequence == plan.chunks && Sha256.Hex(Sha256.Digest(taken)) != plan.payloadSha256 ==>
              r == Err(PayloadChecksum) && !complete)
      ensures r.Ok? && r.value.Some? ==>
        |r.value.value| == plan.encodedBytes && Sha256.Hex(Sha256.Digest(r.value.value)) == plan.payloadSha256
    {
      hide Sha256.Digest, Sha256.Hex, Crc32.Checksum, ChunkCount;
      if chunk.captureId != plan.captureId || chunk.frameId != plan.frameId {
        return Err(ChunkOwner);
      }
      if chunk.total != plan.chunks {
        return Err(ChunkTotal);
      }
      var invalid := ValidateChunk(chunk, plan.maximumChunkBytes);
      if invalid.Some? {
        return Err(invalid.value);
      }
      if complete || chunk.sequence != nextSequence {
        return Err(ChunkSequence);
      }
      var expectedBytes := if chunk.sequence + 1 < plan.chunks then plan.maximumChunkBytes
                           else plan.encodedBytes - plan.maximumChunkBytes * (plan.chunks - 1);
      if chunk.payloadLength != expectedBytes {
        return Err(ChunkLengthError);
      }
      TakenLength(plan, nextSequence);
      var nextBytes := |payload| + chunk.payloadLength;
      if nextBytes > plan.encodedBytes {
        return Err(PayloadLimit);
      }
      payload := payload + chunk.payload;
      nextSequence := nextSequence + 1;
      if nextSequence != plan.chunks {
        return Ok(None);
      }
      if nextBytes != plan.encodedBytes {
        return Err(ChunkLengthError);
      }
      if Sha256.Hex(Sha256.Digest(payload)) != plan.payloadSha256 {
        return Err(PayloadChecksum);
      }
      complete := true;
      r := Ok(Some(payload));
      payload := [];
    }
  }

  /** After a chunk the payload is within the plan, and complete after the last. */
  lemma TakenLength(p: Plan, next: nat)
    requires ValidPlan(p) && next < p.chunks
    ensures next + 1 < p.chunks ==>
      next * p.maximumChunkBytes + p.maximumChunkBytes == (next + 1) * p.maximumChunkBytes <= p.encodedBytes
    ensures next + 1 == p.chunks ==>
      next * p.maximumChunkBytes + (p.encodedBytes - p.maximumChunkBytes * (p.chunks - 1)) == p.encodedBytes
  {
    hide ChunkCount;
    var size := p.maximumChunkBytes;
    ChunkBounds(p.encodedBytes, size);
    assert next * size + size == (next + 1) * size;
    if next + 1 < p.chunks {
      EarlierOffset(next, p.chunks - 1, size);
    } else {
      assert next == p.chunks - 1 && next * size == size * next;
    }
  }

  // --- A whole transfer ---

  ghost predicate ValidCalls(calls: seq<Call>) {
    forall i :: 0 <= i < |calls| ==> ValidCall(calls[i])
  }

  ghost predicate Undisturbed(calls: seq<Call>, captureId: Str, frameId: int) {
    forall i :: 0 <= i < |calls| ==> !Touches(calls[i], captureId, frameId)
  }

  /** The plan the host makes for a stored observation. */
  ghost predicate Describes(p: Plan, s: Stored) {
    && p.captureId == s.captureId && p.frameId == s.frameId && p.chunks == s.chunkCount && p.encodedBytes == |s.bytes|
    && p.payloadSha256 == s.sha256 && p.maximumChunkBytes == s.maximumChunkBytes
  }

  /** The two ends agree: what the collector says of an observation it has stored gives a
      plan that describes it, unless it is too large or has too many chunks. */
  lemma PlanOfStored(s: Stored, maximumPayloadBytes: nat)
    requires Sound(s)
    ensures
      var r := NewPlan(Describe(s), s.captureId, s.frameId, s.maximumChunkBytes, maximumPayloadBytes);
      && (r.Ok? <==> |s.bytes| <= maximumPayloadBytes && s.chunkCount < 0x1_0000_0000)
      && (r.Ok? ==> Describes(r.value, s))
  {
    hide Sha256.Digest, Sha256.Hex;
  }

  /** Other calls that reach the collector between two calls of the host. */
  method Interleave(collector: Collector, calls: seq<Call>, captureId: Str, frameId: int)
    requires ValidStore(collector.observations) && ValidCalls(calls)
    modifies collector
    ensures ValidStore(collector.observations)
    ensures Undisturbed(calls, captureId, frameId) ==>
      Contents(collector.observations, captureId, frameId) == old(Contents(collector.observations, captureId, frameId))
  {
    hide ValidStore, Contents, ValidCall, Final;
    CallsKeepStore(collector.observations, calls);
    if Undisturbed(calls, captureId, frameId) {
      FramesAreIsolated(collector.observations, calls, captureId, frameId);
    }
    collector.observations := Final(collector.observations, calls);
  }

  lemma {:induction false} CallsKeepStore(store: Store, calls: seq<Call>)
    requires ValidStore(store) && ValidCalls(calls)
    ensures ValidStore(Final(store, calls))
    decreases calls
  {
    hide ValidStore, Apply;
    if calls != [] {
      CallKeepsStore(store, calls[0]);
      CallsKeepStore(Apply(store, calls[0]), calls[1..]);
    }
  }

  /** What becomes of a call of the host: it never reaches the collector, it takes effect but
      its answer is lost, or its answer arrives. */
  datatype Delivery = LostBefore | LostAfter | Delivered

  ghost predicate AllDelivered(deliveries: nat -> Delivery, count: nat) {
    forall n :: 0 <= n < count ==> deliveries(n).Delivered?
  }

  /** One round of the loop: read, push and acknowledge a chunk, with other calls before
      the read and before the acknowledgement. */
  method TakeChunk(collector: Collector, assembler: ChunkAssembler, sequence: nat, before: seq<Call>, reading: Delivery,
                   between: seq<Call>, acknowledging: Delivery)
    returns (r: Result<Option<seq<Byte>>>)
    requires ValidStore(collector.observations) && assembler.Valid() && ValidCalls(before) && ValidCalls(between)
    requires assembler.nextSequence == sequence < assembler.plan.chunks && !assembler.complete
    modifies collector, assembler
    ensures ValidStore(collector.observations) && assembler.Valid()
    ensures r.Ok? ==> assembler.nextSequence == sequence + 1 && reading.Delivered? && acknowledging.Delivered?
    ensures r.Ok? && r.value.None? ==> !assembler.complete && sequence + 1 < assembler.plan.chunks
    ensures r.Ok? && r.value.Some? ==>
      && sequence + 1 == assembler.plan.chunks && |r.value.value| == assembler.plan.encodedBytes
      && Sha256.Hex(Sha256.Digest(r.value.value)) == assembler.plan.payloadSha256
    ensures
      var plan := assembler.plan;
      var stored := old(Contents(collector.observations, plan.captureId, plan.frameId));
      Undisturbed(before, plan.captureId, plan.frameId) && Undisturbed(between, plan.captureId, plan.frameId)
      && stored.Some? && Describes(plan, stored.value)
      && old(assembler.payload) == Pieces(stored.value.bytes, plan.maximumChunkBytes, sequence) ==>
        && Contents(collector.observations, plan.captureId, plan.frameId) == stored
        && (r.Ok? <==> reading.Delivered? && acknowledging.Delivered?)
        && (r.Ok? && sequence + 1 < plan.chunks ==>
              r == Ok(None) && assembler.payload == Pieces(stored.value.bytes, plan.maximumChunkBytes, sequence + 1))
        && (r.Ok? && sequence + 1 == plan.chunks ==> r == Ok(Some(stored.value.bytes)))
  {
    hide Sha256.Digest, Sha256.Hex, Crc32.Checksum, ChunkCount, Key, ValidStore, Undisturbed, ValidCalls, Apply;
    var plan := assembler.plan;
    ghost var stored := Contents(collector.observations, plan.captureId, plan.frameId);
    Interleave(collector, before, plan.captureId, plan.frameId);
    if !reading.Delivered? {
      return Err(CallFailed);
    }
    var chunk := collector.Read(plan.captureId, plan.frameId, sequence);
    if chunk.None? {
      return Err(ProtocolShape);
    }
    ExpectedChunk(collector.observations, plan, sequence, Contents(collector.observations, plan.captureId, plan.frameId));
    r := assembler.Push(chunk.value);
    if r.Err? {
      return;
    }
    Interleave(collector, between, plan.captureId, plan.frameId);
    if acknowledging.LostBefore? {
      return Err(CallFailed);
    }
    CallKeepsContents(collector.observations, AcknowledgeCall(plan.captureId, plan.frameId, sequence), plan.captureId, plan.frameId);
    var acknowledged := collector.Acknowledge(plan.captureId, plan.frameId, sequence);
    if acknowledging.LostAfter? {
      return Err(CallFailed);
    }
    if !acknowledged {
      return Err(ProtocolShape);
    }
  }

  /** A chunk of a stored observation is what its plan expects, and continues the payload. */
  lemma ExpectedChunk(store: Store, plan: Plan, sequence: nat, stored: Option<Stored>)
    requires ValidStore(store) && ValidPlan(plan) && sequence < plan.chunks
    requires stored == Contents(store, plan.captureId, plan.frameId)
    ensures stored.Some? && Describes(plan, stored.value) ==>
      && Available(store, plan.captureId, plan.frameId, sequence)
      && var s := store[Key(plan.captureId, plan.frameId)];
      && Expected(plan, sequence, ChunkOf(s, sequence))
      && Pieces(s.bytes, plan.maximumChunkBytes, sequence) + ChunkOf(s, sequence).payload
         == Pieces(s.bytes, plan.maximumChunkBytes, sequence + 1)
      && (sequence + 1 == plan.chunks ==> Pieces(s.bytes, plan.maximumChunkBytes, sequence + 1) == s.bytes)
      && s.sha256 == Sha256.Hex(Sha256.Digest(s.bytes)) && s.bytes == stored.value.bytes
  {
    hide Sha256.Digest, Sha256.Hex, Crc32.Checksum, ChunkCount, Key;
    if stored.Some? && Describes(plan, stored.value) {
      var s := store[Key(plan.captureId, plan.frameId)];
      assert Filed(Key(plan.captureId, plan.frameId), s);
      ChunkLengths(s.bytes, plan.maximumChunkBytes, sequence);
      ChunksCoverBytes(s.bytes, plan.maximumChunkBytes);
    }
  }

  lemma SomeChunk(p: Plan)
    requires ValidPlan(p)
    ensures p.chunks >= 1
  {
  }

  /** The observation is stored as planned and no other call for its frame interferes. */
  ghost predicate Calm(plan: Plan, stored: Option<Stored>, others: nat -> seq<Call>) {
    stored.Some? && Describes(plan, stored.value) && forall n :: Undisturbed(others(n), plan.captureId, plan.frameId)
  }

  /** Whatever else happens, a payload that comes out has the planned length and digest.
      If the observation was stored as planned and no call for the same frame interferes,
      exactly its bytes come out, exactly when every call is delivered. */
  method ReadChunks(collector: Collector, plan: Plan, others: nat -> seq<Call>, deliveries: nat -> Delivery)
    returns (r: Result<seq<Byte>>)
    requires ValidStore(collector.observations) && ValidPlan(plan) && forall n :: ValidCalls(others(n))
    modifies collector
    ensures ValidStore(collector.observations)
    ensures r.Ok? ==> |r.value| == plan.encodedBytes && Sha256.Hex(Sha256.Digest(r.value)) == plan.payloadSha256
    ensures r.Ok? ==> AllDelivered(deliveries, 2 * plan.chunks)
    ensures
      var stored := old(Contents(collector.observations, plan.captureId, plan.frameId));
      Calm(plan, stored, others) ==>
        && Contents(collector.observations, plan.captureId, plan.frameId) == stored
        && (r.Ok? <==> AllDelivered(deliveries, 2 * plan.chunks)) && (r.Ok? ==> r.value == stored.value.bytes)
  {
    hide Sha256.Digest, Sha256.Hex, ChunkCount, Key, ValidStore, Undisturbed, ValidCalls, Contents;
    ghost var stored := Contents(collector.observations, plan.captureId, plan.frameId);
    ghost var calm := Calm(plan, stored, others);
    SomeChunk(plan);
    var assembler := new ChunkAssembler(plan);
    var complete: Option<seq<Byte>> := None;
    var failure: Option<Error> := None;
    var sequence := 0;
    while sequence < plan.chunks && failure.None?
      invariant sequence <= plan.chunks && fresh(assembler) && assembler.plan == plan
      invariant ValidStore(collector.observations) && assembler.Valid()
      invariant failure.None? ==> assembler.nextSequence == sequence && AllDelivered(deliveries, 2 * sequence)
      invariant failure.None? && sequence < plan.chunks ==> complete.None? && !assembler.complete
      invariant complete.Some? ==>
        |complete.value| == plan.encodedBytes && Sha256.Hex(Sha256.Digest(complete.value)) == plan.payloadSha256
      invariant calm ==> Contents(collector.observations, plan.captureId, plan.frameId) == stored
      invariant calm && failure.Some? ==> !AllDelivered(deliveries, 2 * plan.chunks)
      invariant calm && failure.None? && sequence < plan.chunks ==>
        assembler.payload == Pieces(stored.value.bytes, plan.maximumChunkBytes, sequence)
      invariant calm && failure.None? && sequence == plan.chunks ==> complete == Some(stored.value.bytes)
      decreases plan.chunks - sequence, failure.None?
    {
      var taken := TakeChunk(collector, assembler, sequence, others(2 * sequence), deliveries(2 * sequence),
                             others(2 * sequence + 1), deliveries(2 * sequence + 1));
      match taken {
        case Err(error) => failure := Some(error);
        case Ok(payload) =>
          complete := payload;
          sequence := sequence + 1;
      }
    }
    if failure.Some? {
      return Err(failure.value);
    }
    return if complete.Some? then Ok(complete.value) else Err(ProtocolShape);
  }

  /** What the host makes of a payload: the observation's frame owner paths, or nothing if
      it is malformed. */
  type Reader = seq<Byte> -> Option<seq<Mapping>>

  ghost predicate Acceptable(owners: Option<seq<Mapping>>) {
    owners.Some? && AllWellFormed(owners.value) && DistinctOriginals(owners.value) && DistinctRetained(owners.value)
  }

  /** The whole collection of a frame. A payload is handed on only with the planned length
      and digest, and only if it decodes to acceptable frame owners. A release is attempted
      in any case. If the observation was stored as planned and no call for the same frame
      interferes, the payload is handed on exactly when its bytes decode so and no call
      fails, and the observation is gone exactly when the release took effect. */
  method CollectFrame(collector: Collector, plan: Plan, others: nat -> seq<Call>, deliveries: nat -> Delivery,
                      reader: Reader, releasing: Delivery)
    returns (r: Result<seq<Byte>>)
    requires ValidStore(collector.observations) && ValidPlan(plan) && forall n :: ValidCalls(others(n))
    modifies collector
    ensures ValidStore(collector.observations)
    ensures !releasing.LostBefore? ==> Key(plan.captureId, plan.frameId) !in collector.observations
    ensures r.Ok? ==>
      && |r.value| == plan.encodedBytes && Sha256.Hex(Sha256.Digest(r.value)) == plan.payloadSha256
      && Acceptable(reader(r.value)) && AllDelivered(deliveries, 2 * plan.chunks) && releasing.Delivered?
    ensures
      var stored := old(Contents(collector.observations, plan.captureId, plan.frameId));
      Calm(plan, stored, others) ==>
        && (r.Ok? <==> Acceptable(reader(stored.value.bytes)) && AllDelivered(deliveries, 2 * plan.chunks) && releasing.Delivered?)
        && (r.Ok? ==> r.value == stored.value.bytes)
        && Contents(collector.observations, plan.captureId, plan.frameId) == (if releasing.LostBefore? then stored else None)
  {
    hide Sha256.Digest, Sha256.Hex, ChunkCount, Key, ValidStore, Undisturbed, ValidCalls, Describes,
         AllWellFormed, DistinctOriginals, DistinctRetained, AllDelivered;
    r := ReadChunks(collector, plan, others, deliveries);
    if r.Ok? {
      var owners := reader(r.value);
      if owners.None? {
        r := Err(ProtocolShape);
      } else {
        var ok := ValidateFrameOwnerPaths(owners.value);
        if !ok {
          r := Err(ProtocolShape);
        }
      }
    }
    Interleave(collector, others(2 * plan.chunks), plan.captureId, plan.frameId);
    if !releasing.LostBefore? {
      collector.Release(plan.captureId, plan.frameId);
    }
    if !releasing.Delivered? && r.Ok? {
      r := Err(CallFailed);
    }
  }
}
