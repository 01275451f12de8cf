/**
 Prepared observations wait in the collector under a key made of capture and frame; the
 host reads them chunk by chunk, acknowledges each chunk and releases them.
 */
module Observations {
  import opened Text
  import opened Decimal
  import Json
  import JsonMachine
  import Escape
  import Sha256
  import Crc32

  // --- Keys ---

  function Key(captureId: Str, frameId: int): Str {
    captureId + [58] + IntText(frameId)
  }

  lemma ColonNotLater(a: Str, t: Str, b: Str, u: Str)
    requires a + [58] + t == b + [58] + u && forall i :: 0 <= i < |u| ==> u[i] != 58
    ensures |a| <= |b|
  {
    var key := b + [58] + u;
    assert key == a + [58] + t && key[|a|] == 58;
    assert forall j :: |b| < j < |key| ==> key[j] == u[j - |b| - 1];
  }

  /** The last colon of a key divides it, whatever the capture id holds. */
  lemma KeyInjective(captureId: Str, frameId: int, otherCapture: Str, otherFrame: int)
    requires Key(captureId, frameId) == Key(otherCapture, otherFrame)
    ensures captureId == otherCapture && frameId == otherFrame
  {
    hide IntText;
    var key, other := Key(captureId, frameId), Key(otherCapture, otherFrame);
    ColonNotLater(captureId, IntText(frameId), otherCapture, IntText(otherFrame));
    ColonNotLater(otherCapture, IntText(otherFrame), captureId, IntText(frameId));
    assert key[..|captureId|] == captureId && other[..|captureId|] == otherCapture;
    assert key[|captureId| + 1..] == IntText(frameId) && other[|captureId| + 1..] == IntText(otherFrame);
    IntTextInjective(frameId, otherFrame);
  }

  // --- Chunks ---

  function ChunkCount(length: nat, size: nat): nat
    requires size >= 1
  {
    var calculated := (length + size - 1) / size;
    if calculated > 1 then calculated else 1
  }

  function Min(a: nat, b: nat): nat {
    if a < b then a else b
  }

  /** A chunk, as a clamped subarray. */
  function Piece(bytes: seq<Byte>, size: nat, sequence: nat): seq<Byte> {
    var offset := sequence * size;
    bytes[Min(offset, |bytes|)..Min(offset + size, |bytes|)]
  }

  function Pieces(bytes: seq<Byte>, size: nat, count: nat): seq<Byte> {
    if count == 0 then [] else Pieces(bytes, size, count - 1) + Piece(bytes, size, count - 1)
  }

  /** The chunks before the last end inside the bytes, and the last reaches their end. */
  lemma ChunkBounds(length: nat, size: nat)
    requires size >= 1
    ensures var count := ChunkCount(length, size);
      && (count - 1) * size <= length <= count * size
      && (length > 0 ==> (count - 1) * size < length)
  {
    var q, r := (length + size - 1) / size, (length + size - 1) % size;
    assert length + size - 1 == size * q + r;
    if q >= 1 {
      assert (q - 1) * size == size * q - size;
      assert q * size == size * q;
      assert q > 1 || q == 1;
    } else {
      assert size * q == 0;
    }
  }

  lemma {:induction false} EarlierOffset(sequence: nat, count: nat, size: nat)
    requires sequence < count
    ensures sequence * size + size <= count * size
    decreases count
  {
    if sequence + 1 < count {
      EarlierOffset(sequence, count - 1, size);
      assert count * size == (count - 1) * size + size;
    } else {
      assert count * size == sequence * size + size;
    }
  }

  lemma {:induction false} PiecesAreAPrefix(bytes: seq<Byte>, size: nat, count: nat)
    ensures Pieces(bytes, size, count) == bytes[..Min(count * size, |bytes|)]
  {
    if count > 0 {
      PiecesAreAPrefix(bytes, size, count - 1);
      assert count * size == (count - 1) * size + size;
    }
  }

  /** All chunks in order are the bytes. */
  lemma ChunksCoverBytes(bytes: seq<Byte>, size: nat)
    requires size >= 1
    ensures Pieces(bytes, size, ChunkCount(|bytes|, size)) == bytes
  {
    hide ChunkCount, Pieces;
    var count := ChunkCount(|bytes|, size);
    ChunkBounds(|bytes|, size);
    PiecesAreAPrefix(bytes, size, count);
    assert bytes[..|bytes|] == bytes;
  }

  /** The length a chunk must have. */
  function ChunkLength(length: nat, size: nat, sequence: nat): int
    requires size >= 1
  {
    var count := ChunkCount(length, size);
    if sequence + 1 < count then size else length - size * (count - 1)
  }

  /** Each chunk but the last has exactly the chunk size, and the last what is left. */
  lemma ChunkLengths(bytes: seq<Byte>, size: nat, sequence: nat)
    requires size >= 1 && sequence < ChunkCount(|bytes|, size)
    ensures |Piece(bytes, size, sequence)| == ChunkLength(|bytes|, size, sequence) <= size
  {
    hide ChunkCount;
    var count := ChunkCount(|bytes|, size);
    ChunkBounds(|bytes|, size);
    assert size * (count - 1) == (count - 1) * size && count * size == (count - 1) * size + size;
    if sequence + 1 < count {
      EarlierOffset(sequence, count - 1, size);
    } else {
      assert sequence == count - 1;
    }
  }

  // --- The collector's store ---

  datatype Stored = Stored(captureId: Str, frameId: int, bytes: seq<Byte>, chunkCount: nat, maximumChunkBytes: nat,
                           acknowledged: set<int>, sha256: Str)

  datatype Descriptor = Descriptor(captureId: Str, frameId: int, chunks: nat, encodedBytes: nat, payloadSha256: Str)

  datatype Chunk = Chunk(captureId: Str, frameId: int, sequence: nat, total: nat, payloadLength: nat, payloadCrc32: int,
                         payload: seq<Byte>)

  ghost predicate Sound(s: Stored) {
    && s.maximumChunkBytes >= 1 && s.chunkCount == ChunkCount(|s.bytes|, s.maximumChunkBytes)
    && s.sha256 == Sha256.Hex(Sha256.Digest(s.bytes))
    && forall i :: i in s.acknowledged ==> 0 <= i < s.chunkCount
  }

  function Describe(s: Stored): Descriptor {
    Descriptor(s.captureId, s.frameId, s.chunkCount, |s.bytes|, s.sha256)
  }

  function ChunkOf(s: Stored, sequence: nat): Chunk {
    var payload := Piece(s.bytes, s.maximumChunkBytes, sequence);
    Chunk(s.captureId, s.frameId, sequence, s.chunkCount, |payload|, Crc32.Checksum(payload), payload)
  }

  type Store = map<Str, Stored>

  /** Calls as they reach the store. A preparation reaches it twice, with other calls
      possible in between. */
  datatype Call =
    | BeginCall(captureId: Str, frameId: int)
    | FinishCall(stored: Stored)
    | ReadCall(captureId: Str, frameId: int, sequence: int)
    | AcknowledgeCall(captureId: Str, frameId: int, sequence: int)
    | ReleaseCall(captureId: Str, frameId: int)

  function Without(store: Store, key: Str): Store {
    map k | k in store && k != key :: store[k]
  }

  predicate Available(store: Store, captureId: Str, frameId: int, sequence: int) {
    var key := Key(captureId, frameId);
    key in store && 0 <= sequence < store[key].chunkCount
  }

  function Apply(store: Store, call: Call): Store {
    match call
    case BeginCall(captureId, frameId) => Without(store, Key(captureId, frameId))
    case FinishCall(stored) => store[Key(stored.captureId, stored.frameId) := stored]
    case ReadCall(_, _, _) => store
    case AcknowledgeCall(captureId, frameId, sequence) =>
      var key := Key(captureId, frameId);
      if Available(store, captureId, frameId, sequence)
      then store[key := store[key].(acknowledged := store[key].acknowledged + {sequence})]
      else store
    case ReleaseCall(captureId, frameId) => Without(store, Key(captureId, frameId))
  }

  function Final(store: Store, calls: seq<Call>): Store
    decreases calls
  {
    if calls == [] then store else Final(Apply(store, calls[0]), calls[1..])
  }

  ghost predicate Filed(key: Str, s: Stored) {
    key == Key(s.captureId, s.frameId) && Sound(s)
  }

  ghost predicate ValidStore(store: Store) {
    forall k :: k in store ==> Filed(k, store[k])
  }

  ghost predicate ValidCall(call: Call) {
    call.FinishCall? ==> Sound(call.stored)
  }

  lemma CallKeepsStore(store: Store, call: Call)
    requires ValidStore(store) && ValidCall(call)
    ensures ValidStore(Apply(store, call))
  {
    hide Key, Filed, Sound;
    match call
    case FinishCall(stored) => FiledHere(stored);
    case AcknowledgeCall(captureId, frameId, sequence) =>
      if Available(store, captureId, frameId, sequence) {
        AcknowledgedStays(Key(captureId, frameId), store[Key(captureId, frameId)], sequence);
      }
    case _ =>
  }

  lemma FiledHere(s: Stored)
    requires Sound(s)
    ensures Filed(Key(s.captureId, s.frameId), s)
  {
  }

  lemma AcknowledgedStays(key: Str, s: Stored, sequence: nat)
    requires Filed(key, s) && sequence < s.chunkCount
    ensures Filed(key, s.(acknowledged := s.acknowledged + {sequence}))
  {
    hide Key, ChunkCount, Sha256.Digest, Sha256.Hex;
  }

  /** The call prepares or releases the frame's observation. */
  predicate Touches(call: Call, captureId: Str, frameId: int) {
    match call
    case BeginCall(c, f) => c == captureId && f == frameId
    case FinishCall(stored) => stored.captureId == captureId && stored.frameId == frameId
    case ReleaseCall(c, f) => c == captureId && f == frameId
    case _ => false
  }

  /** What is stored for a frame, but for its acknowledgements. */
  function Contents(store: Store, captureId: Str, frameId: int): Option<Stored> {
    var key := Key(captureId, frameId);
    if key in store then Some(store[key].(acknowledged := {})) else None
  }

  lemma CallKeepsContents(store: Store, call: Call, captureId: Str, frameId: int)
    requires !Touches(call, captureId, frameId)
    ensures Contents(Apply(store, call), captureId, frameId) == Contents(store, captureId, frameId)
  {
    hide Key;
    match call
    case BeginCall(c, f) => Apart(c, f, captureId, frameId);
    case FinishCall(stored) => Apart(stored.captureId, stored.frameId, captureId, frameId);
    case ReleaseCall(c, f) => Apart(c, f, captureId, frameId);
    case _ =>
  }

  lemma Apart(captureId: Str, frameId: int, otherCapture: Str, otherFrame: int)
    requires captureId != otherCapture || frameId != otherFrame
    ensures Key(captureId, frameId) != Key(otherCapture, otherFrame)
  {
    hide Key;
    if Key(captureId, frameId) == Key(otherCapture, otherFrame) {
      KeyInjective(captureId, frameId, otherCapture, otherFrame);
    }
  }

  /** No sequence of calls for other frames or other captures, nor of reads and
      acknowledgements, changes what is stored for a frame. */
  lemma {:induction false} FramesAreIsolated(store: Store, calls: seq<Call>, captureId: Str, frameId: int)
    requires ValidStore(store) && forall i :: 0 <= i < |calls| ==> ValidCall(calls[i]) && !Touches(calls[i], captureId, frameId)
    ensures ValidStore(Final(store, calls))
    ensures Contents(Final(store, calls), captureId, frameId) == Contents(store, captureId, frameId)
    decreases calls
  {
    hide Contents, ValidStore, ValidCall, Apply;
    if calls != [] {
      CallKeepsStore(store, calls[0]);
      CallKeepsContents(store, calls[0], captureId, frameId);
      FramesAreIsolated(Apply(store, calls[0]), calls[1..], captureId, frameId);
    }
  }

  // --- The store follows the calls ---

  /** Some call acknowledges this chunk of the frame. */
  ghost predicate AcknowledgedBy(calls: seq<Call>, captureId: Str, frameId: int, sequence: int) {
    AcknowledgeCall(captureId, frameId, sequence) in calls
  }

  /** One call that does not touch the frame: its entry stays, and gains the chunk that
      the call acknowledges, if it has that chunk. */
  lemma EntryStep(store: Store, call: Call, captureId: Str, frameId: int, sequence: int)
    requires Key(captureId, frameId) in store && !Touches(call, captureId, frameId)
    ensures var key, after := Key(captureId, frameId), Apply(store, call);
      && key in after && after[key].(acknowledged := {}) == store[key].(acknowledged := {})
      && (sequence in after[key].acknowledged <==>
            sequence in store[key].acknowledged
            || (call == AcknowledgeCall(captureId, frameId, sequence) && 0 <= sequence < store[key].chunkCount))
  {
    hide Key;
    match call
    case BeginCall(c, f) => Apart(c, f, captureId, frameId);
    case FinishCall(stored) => Apart(stored.captureId, stored.frameId, captureId, frameId);
    case ReleaseCall(c, f) => Apart(c, f, captureId, frameId);
    case AcknowledgeCall(c, f, _) => if c != captureId || f != frameId { Apart(c, f, captureId, frameId); }
    case ReadCall(_, _, _) =>
  }

  lemma {:induction false} EntryStays(store: Store, calls: seq<Call>, captureId: Str, frameId: int, sequence: int)
    requires Key(captureId, frameId) in store && forall i :: 0 <= i < |calls| ==> !Touches(calls[i], captureId, frameId)
    ensures var key, after := Key(captureId, frameId), Final(store, calls);
      && key in after && after[key].(acknowledged := {}) == store[key].(acknowledged := {})
      && (sequence in after[key].acknowledged <==>
            sequence in store[key].acknowledged
            || (AcknowledgedBy(calls, captureId, frameId, sequence) && 0 <= sequence < store[key].chunkCount))
    decreases calls
  {
    hide Key, Apply, Touches;
    if calls != [] {
      EntryStep(store, calls[0], captureId, frameId, sequence);
      EntryStays(Apply(store, calls[0]), calls[1..], captureId, frameId, sequence);
      assert calls == [calls[0]] + calls[1..];
    }
  }

  lemma NoEntryStays(store: Store, calls: seq<Call>, captureId: Str, frameId: int)
    requires Key(captureId, frameId) !in store && forall i :: 0 <= i < |calls| ==> !Touches(calls[i], captureId, frameId)
    ensures Key(captureId, frameId) !in Final(store, calls)
    decreases calls
  {
    hide Key, Apply, Touches;
    if calls != [] {
      CallKeepsContents(store, calls[0], captureId, frameId);
      NoEntryStays(Apply(store, calls[0]), calls[1..], captureId, frameId);
    }
  }

  /** After any calls the store holds for a frame what the last of its preparations put
      there, unless another preparation has begun or a release has come since; and of that
      observation exactly the chunks acknowledged since are acknowledged. */
  lemma {:induction false} StoreFollowsCalls(store: Store, calls: seq<Call>, last: nat, captureId: Str, frameId: int, sequence: int)
    requires last < |calls| && Touches(calls[last], captureId, frameId)
    requires forall i :: last < i < |calls| ==> !Touches(calls[i], captureId, frameId)
    ensures var key, after, call := Key(captureId, frameId), Final(store, calls), calls[last];
      && (key in after <==> call.FinishCall?)
      && (call.FinishCall? ==>
            && after[key].(acknowledged := {}) == call.stored.(acknowledged := {})
            && (sequence in after[key].acknowledged <==>
                  sequence in call.stored.acknowledged
                  || (AcknowledgedBy(calls[last + 1..], captureId, frameId, sequence) && 0 <= sequence < call.stored.chunkCount)))
    decreases calls
  {
    hide Key;
    if last == 0 {
      var next := Apply(store, calls[0]);
      assert forall i :: 0 <= i < |calls[1..]| ==> calls[1..][i] == calls[i + 1];
      if calls[0].FinishCall? {
        EntryStays(next, calls[1..], captureId, frameId, sequence);
      } else {
        NoEntryStays(next, calls[1..], captureId, frameId);
      }
    } else {
      StoreFollowsCalls(Apply(store, calls[0]), calls[1..], last - 1, captureId, frameId, sequence);
      assert calls[1..][last..] == calls[last + 1..];
    }
  }

  // --- Reading in any order ---

  /** What a call returns to a reader. */
  function Response(store: Store, call: Call): Option<Chunk> {
    if call.ReadCall? && Available(store, call.captureId, call.frameId, call.sequence)
    then Some(ChunkOf(store[Key(call.captureId, call.frameId)], call.sequence)) else None
  }

  function Responses(store: Store, calls: seq<Call>): (r: seq<Option<Chunk>>)
    ensures |r| == |calls|
    decreases calls
  {
    if calls == [] then [] else [Response(store, calls[0])] + Responses(Apply(store, calls[0]), calls[1..])
  }

  /** Between calls for other frames, a read returns its chunk of what was stored. */
  lemma {:induction false} ReadReturnsChunk(store: Store, calls: seq<Call>, i: nat, captureId: Str, frameId: int)
    requires ValidStore(store) && forall j :: 0 <= j < |calls| ==> ValidCall(calls[j]) && !Touches(calls[j], captureId, frameId)
    requires Contents(store, captureId, frameId).Some? && i < |calls| && calls[i].ReadCall?
    requires calls[i].captureId == captureId && calls[i].frameId == frameId
    requires 0 <= calls[i].sequence < Contents(store, captureId, frameId).value.chunkCount
    ensures Responses(store, calls)[i] == Some(ChunkOf(Contents(store, captureId, frameId).value, calls[i].sequence))
    decreases calls
  {
    hide ValidStore, ValidCall, Apply, Piece, Crc32.Checksum, Key;
    if i > 0 {
      CallKeepsStore(store, calls[0]);
      CallKeepsContents(store, calls[0], captureId, frameId);
      ReadReturnsChunk(Apply(store, calls[0]), calls[1..], i - 1, captureId, frameId);
    }
  }

  /** The payloads at the given places, one after the other. */
  function PayloadsAt(responses: seq<Option<Chunk>>, places: seq<nat>): seq<Byte>
    requires forall k :: 0 <= k < |places| ==> places[k] < |responses| && responses[places[k]].Some?
  {
    if places == [] then []
    else PayloadsAt(responses, places[..|places| - 1]) + responses[places[|places| - 1]].value.payload
  }

  lemma {:induction false} PayloadsArePieces(s: Stored, responses: seq<Option<Chunk>>, places: seq<nat>)
    requires forall k :: 0 <= k < |places| ==> places[k] < |responses| && responses[places[k]] == Some(ChunkOf(s, k))
    ensures PayloadsAt(responses, places) == Pieces(s.bytes, s.maximumChunkBytes, |places|)
  {
    hide Piece, Crc32.Checksum;
    if places != [] {
      PayloadsArePieces(s, responses, places[..|places| - 1]);
    }
  }

  /** Chunks may be read in any order, interleaved with anything for other frames: put in
      sequence they are the stored bytes. `places[k]` is where chunk k was read. */
  lemma ReadInAnyOrder(store: Store, calls: seq<Call>, places: seq<nat>, captureId: Str, frameId: int)
    requires ValidStore(store) && forall j :: 0 <= j < |calls| ==> ValidCall(calls[j]) && !Touches(calls[j], captureId, frameId)
    requires Contents(store, captureId, frameId).Some? && |places| == Contents(store, captureId, frameId).value.chunkCount
    requires forall k :: 0 <= k < |places| ==> places[k] < |calls| && calls[places[k]] == ReadCall(captureId, frameId, k)
    ensures forall k :: 0 <= k < |places| ==> Responses(store, calls)[places[k]].Some?
    ensures PayloadsAt(Responses(store, calls), places) == Contents(store, captureId, frameId).value.bytes
  {
    hide ValidStore, ValidCall, Responses, ChunkOf, Contents;
    var s := Contents(store, captureId, frameId).value;
    forall k | 0 <= k < |places|
      ensures Responses(store, calls)[places[k]] == Some(ChunkOf(s, k))
    {
      ReadReturnsChunk(store, calls, places[k], captureId, frameId);
    }
    PayloadsArePieces(s, Responses(store, calls), places);
    StoredSound(store, captureId, frameId);
    ChunksCoverBytes(s.bytes, s.maximumChunkBytes);
  }

  lemma StoredSound(store: Store, captureId: Str, frameId: int)
    requires ValidStore(store) && Contents(store, captureId, frameId).Some?
    ensures Sound(Contents(store, captureId, frameId).value)
  {
    hide Key, ChunkCount, Sha256.Digest, Sha256.Hex;
    assert Filed(Key(captureId, frameId), store[Key(captureId, frameId)]);
  }

  /** What taking the snapshot comes to. */
  datatype Outcome = Observed(observation: Json.Value) | LimitExceeded | Threw

  datatype Options = Options(captureId: Str, frameId: int, maximumChunkBytes: int, maximumPayloadBytes: int, maximumNodes: int,
                             maximumFrames: int, frameDepth: int, maximumFrameDepth: int)

  predicate IsCount(n: int) {
    IsSafeInteger(n) && n >= 0
  }

  /** The limits a snapshot can be taken with. */
  predicate Limited(o: Options) {
    && IsCount(o.maximumPayloadBytes) && o.maximumPayloadBytes >= 1 && IsCount(o.maximumNodes) && IsCount(o.maximumFrames)
    && IsCount(o.frameDepth) && IsCount(o.maximumFrameDepth)
  }

  datatype Prepared = Ready(stored: Stored) | Refused | Failed

  class Collector {
    var observations: Store

    constructor ()
      ensures observations == map[] && ValidStore(observations)
    {
      observations := map[];
    }

    /** `prepare` up to its only suspension: the old observation is gone whatever happens. */
    method BeginPrepare(o: Options, outcome: Outcome) returns (r: Prepared)
      requires ValidStore(observations)
      modifies this
      ensures observations == Apply(old(observations), BeginCall(o.captureId, o.frameId)) && ValidStore(observations)
      ensures r.Failed? <==> !(IsCount(o.maximumChunkBytes) && o.maximumChunkBytes >= 1) || (Limited(o) && outcome.Threw?)
      ensures r.Ready? <==>
        && IsCount(o.maximumChunkBytes) && o.maximumChunkBytes >= 1 && Limited(o) && outcome.Observed?
        && Utf8Length(Json.Print(outcome.observation, Escape.Mode.Json)) <= o.maximumPayloadBytes
      ensures r.Ready? ==>
        && Sound(r.stored) && r.stored.captureId == o.captureId && r.stored.frameId == o.frameId
        && r.stored.bytes == Encode(Json.Print(outcome.observation, Escape.Mode.Json))
        && |r.stored.bytes| <= o.maximumPayloadBytes && r.stored.maximumChunkBytes == o.maximumChunkBytes
        && r.stored.acknowledged == {}
    {
      hide Json.Print, Encode, Sha256.Digest, Sha256.Hex, Key, ValidStore;
      CallKeepsStore(observations, BeginCall(o.captureId, o.frameId));
      observations := Without(observations, Key(o.captureId, o.frameId));
      if !IsSafeInteger(o.maximumChunkBytes) || o.maximumChunkBytes < 1 {
        return Failed;
      }
      if !IsSafeInteger(o.maximumPayloadBytes) || o.maximumPayloadBytes < 1 {
        return Refused;
      }
      if !IsSafeInteger(o.maximumNodes) || o.maximumNodes < 0 {
        return Refused;
      }
      if !IsSafeInteger(o.maximumFrames) || o.maximumFrames < 0 {
        return Refused;
      }
      if !IsSafeInteger(o.frameDepth) || o.frameDepth < 0 || !IsSafeInteger(o.maximumFrameDepth) || o.maximumFrameDepth < 0 {
        return Refused;
      }
      match outcome {
        case Threw => return Failed;
        case LimitExceeded => return Refused;
        case Observed(observation) =>
          var serialized := JsonMachine.SerializeJsonBytesBounded(observation, o.maximumPayloadBytes);
          if serialized.Limit? {
            return Refused;
          }
          var bytes := serialized.value;
          var calculatedChunks := (|bytes| + o.maximumChunkBytes - 1) / o.maximumChunkBytes;
          var chunkCount := if calculatedChunks > 1 then calculatedChunks else 1;
          var digest := Sha256.Sha256Fallback(bytes);
          return Ready(Stored(o.captureId, o.frameId, bytes, chunkCount, o.maximumChunkBytes, {}, digest));
      }
    }

    /** `prepare` after its suspension. */
    method FinishPrepare(stored: Stored) returns (descriptor: Descriptor)
      requires ValidStore(observations) && Sound(stored)
      modifies this
      ensures observations == Apply(old(observations), FinishCall(stored)) && ValidStore(observations)
      ensures descriptor == Describe(stored)
    {
      hide Key, Sound, ValidStore;
      CallKeepsStore(observations, FinishCall(stored));
      observations := observations[Key(stored.captureId, stored.frameId) := stored];
      descriptor := Describe(observations[Key(stored.captureId, stored.frameId)]);
    }

    /** A chunk of the frame's own observation, or a range error. */
    method Read(captureId: Str, frameId: int, sequence: int) returns (chunk: Option<Chunk>)
      requires ValidStore(observations)
      ensures chunk.Some? <==> Available(observations, captureId, frameId, sequence)
      ensures chunk.Some? ==>
        && chunk.value == ChunkOf(observations[Key(captureId, frameId)], sequence)
        && chunk.value.captureId == captureId && chunk.value.frameId == frameId
    {
      hide Key, Piece, ValidStore, Crc32.Checksum;
      var key := Key(captureId, frameId);
      if key !in observations || sequence < 0 || sequence >= observations[key].chunkCount {
        return None;
      }
      var stored := observations[key];
      OwnEntry(observations, captureId, frameId);
      var payload := Piece(stored.bytes, stored.maximumChunkBytes, sequence);
      var payloadValues: seq<Byte> := [];
      for index := 0 to |payload|
        invariant payloadValues == payload[..index]
      {
        payloadValues := payloadValues + [payload[index]];
      }
      assert payloadValues == payload;
      var crc := Crc32.Compute(payload);
      chunk := Some(Chunk(captureId, frameId, sequence, stored.chunkCount, |payload|, crc, payloadValues));
    }

    method Acknowledge(captureId: Str, frameId: int, sequence: int) returns (ok: bool)
      requires ValidStore(observations)
      modifies this
      ensures observations == Apply(old(observations), AcknowledgeCall(captureId, frameId, sequence)) && ValidStore(observations)
      ensures ok <==> Available(old(observations), captureId, frameId, sequence)
    {
      hide Key, ValidStore;
      CallKeepsStore(observations, AcknowledgeCall(captureId, frameId, sequence));
      var key := Key(captureId, frameId);
      if key !in observations || sequence < 0 || sequence >= observations[key].chunkCount {
        return false;
      }
      var stored := observations[key];
      observations := observations[key := stored.(acknowledged := stored.acknowledged + {sequence})];
      return true;
    }

    method Release(captureId: Str, frameId: int)
      requires ValidStore(observations)
      modifies this
      ensures observations == Apply(old(observations), ReleaseCall(captureId, frameId)) && ValidStore(observations)
    {
      hide Key, ValidStore;
      CallKeepsStore(observations, ReleaseCall(captureId, frameId));
      observations := Without(observations, Key(captureId, frameId));
    }
  }

  lemma OwnEntry(store: Store, captureId: Str, frameId: int)
    requires ValidStore(store) && Key(captureId, frameId) in store
    ensures store[Key(captureId, frameId)].captureId == captureId && store[Key(captureId, frameId)].frameId == frameId
  {
    hide Key, Sound;
    var s := store[Key(captureId, frameId)];
    assert Filed(Key(captureId, frameId), s);
    KeyInjective(s.captureId, s.frameId, captureId, frameId);
  }
}
