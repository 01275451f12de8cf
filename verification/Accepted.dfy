/**
 From the capture to the host: the observation's frame owners as JSON, the host's reader
 for them, and a whole frame from snapshot to accepted payload.
 */
module Accepted {
  import opened Text
  import opened Escape
  import opened Json
  import opened Utf8
  import opened Received
  import opened FrameOwners
  import opened Observations
  import Sha256
  import Captures
  import Snapshot
  import Transfer

  const FRAME_OWNERS: Str := Ascii("frameOwners")
  const ORIGINAL_PATH: Str := Ascii("originalPath")
  const RETAINED_PATH: Str := Ascii("retainedPath")

  // --- What the collector writes ---

  function PathItems(path: Path): seq<Value> {
    if path == [] then [] else [Number(path[0])] + PathItems(path[1..])
  }

  function MappingValue(m: Mapping): Value {
    Object([Member(ORIGINAL_PATH, Array(PathItems(m.originalPath))), Member(RETAINED_PATH, Array(PathItems(m.retainedPath)))])
  }

  function MappingItems(list: seq<Mapping>): seq<Value> {
    if list == [] then [] else [MappingValue(list[0])] + MappingItems(list[1..])
  }

  /** The observation: its other members, then the frame owners. */
  function ObservationOf(others: seq<Member>, owners: seq<Mapping>): Value {
    Object(others + [Member(FRAME_OWNERS, Array(MappingItems(owners)))])
  }

  /** The other members have ASCII names of their own. */
  ghost predicate OtherNames(others: seq<Member>) {
    forall i :: 0 <= i < |others| ==> AllAscii(others[i].key) && others[i].key != FRAME_OWNERS
  }

  // --- What the host reads ---

  /** Path indices are unsigned 32-bit numbers. */
  function ReadPath(items: seq<Value>): Option<Path> {
    if items == [] then Some([])
    else
      match ReadPath(items[1..])
      case None => None
      case Some(rest) =>
        if items[0].Number? && 0 <= items[0].n < 0x1_0000_0000 then Some([items[0].n] + rest) else None
  }

  function ReadMapping(v: Value): Option<Mapping> {
    if !v.Object? then None
    else
      match (Lookup(v.members, ORIGINAL_PATH), Lookup(v.members, RETAINED_PATH))
      case (Some(Array(original)), Some(Array(retained))) =>
        (match (ReadPath(original), ReadPath(retained))
         case (Some(p), Some(q)) => Some(Mapping(p, q))
         case _ => None)
      case _ => None
  }

  function ReadMappings(items: seq<Value>): Option<seq<Mapping>> {
    if items == [] then Some([])
    else
      match (ReadMapping(items[0]), ReadMappings(items[1..]))
      case (Some(m), Some(rest)) => Some([m] + rest)
      case _ => None
  }

  /** Frame owners default to none when the member is missing. */
  function OwnersOfObservation(v: Value): Option<seq<Mapping>> {
    if !v.Object? then None
    else
      match Lookup(v.members, FRAME_OWNERS)
      case None => Some([])
      case Some(Array(items)) => ReadMappings(items)
      case _ => None
  }

  function ReadOwners(bytes: seq<Byte>): Option<seq<Mapping>> {
    match Decode(bytes)
    case None => None
    case Some(text) =>
      match ParseText(text)
      case None => None
      case Some(v) => OwnersOfObservation(v)
  }

  // --- Reading back ---

  ghost predicate Small(path: Path) {
    forall i :: 0 <= i < |path| ==> path[i] < 0x1_0000_0000
  }

  ghost predicate AllSmall(list: seq<Mapping>) {
    forall i :: 0 <= i < |list| ==> Small(list[i].originalPath) && Small(list[i].retainedPath)
  }

  lemma {:induction false} PathReadsBack(path: Path)
    ensures ReadPath(PathItems(path)) == if Small(path) then Some(path) else None
  {
    if path != [] {
      PathReadsBack(path[1..]);
      assert PathItems(path)[1..] == PathItems(path[1..]);
      assert path == [path[0]] + path[1..];
      assert Small(path) <==> path[0] < 0x1_0000_0000 && Small(path[1..]);
    }
  }

  lemma MappingReadsBack(m: Mapping)
    ensures ReadMapping(MappingValue(m)) == if Small(m.originalPath) && Small(m.retainedPath) then Some(m) else None
  {
    hide ReadPath, PathItems, Small;
    PathReadsBack(m.originalPath);
    PathReadsBack(m.retainedPath);
    assert ORIGINAL_PATH[0] == 111 && RETAINED_PATH[0] == 114;
    var ms := MappingValue(m).members;
    assert Lookup(ms, RETAINED_PATH) == Lookup(ms[1..], RETAINED_PATH);
  }

  lemma {:induction false} MappingsReadBack(list: seq<Mapping>)
    ensures ReadMappings(MappingItems(list)) == if AllSmall(list) then Some(list) else None
  {
    hide ReadMapping, MappingValue, Small;
    if list != [] {
      MappingsReadBack(list[1..]);
      MappingReadsBack(list[0]);
      assert MappingItems(list)[1..] == MappingItems(list[1..]);
      assert list == [list[0]] + list[1..];
      assert AllSmall(list) <==> Small(list[0].originalPath) && Small(list[0].retainedPath) && AllSmall(list[1..]);
    }
  }

  /** Numbers, arrays and ASCII names come through printing as they are. */
  lemma {:induction false} PathUnchanged(path: Path)
    ensures NormalItems(RepairedItems(PathItems(path))) == PathItems(path)
  {
    if path != [] {
      PathUnchanged(path[1..]);
      assert PathItems(path)[1..] == PathItems(path[1..]);
      assert RepairedItems(PathItems(path))[1..] == RepairedItems(PathItems(path[1..]));
    }
  }

  lemma MappingUnchanged(m: Mapping)
    ensures Normal(RepairedValue(MappingValue(m))) == MappingValue(m)
  {
    hide Repaired, PathItems, NormalItems, RepairedItems;
    PathUnchanged(m.originalPath);
    PathUnchanged(m.retainedPath);
    RepairedAscii(ORIGINAL_PATH);
    RepairedAscii(RETAINED_PATH);
    var a := Member(ORIGINAL_PATH, Array(PathItems(m.originalPath)));
    var b := Member(RETAINED_PATH, Array(PathItems(m.retainedPath)));
    OneMember(b);
    MembersStep(a, [b]);
    assert [a] + [b] == [a, b];
  }

  /** A member after printing and reading. */
  function Read(m: Member): Member {
    Member(Repaired(m.key), Normal(RepairedValue(m.value)))
  }

  function ReadMembers(ms: seq<Member>): seq<Member> {
    NormalMembers(RepairedMembers(ms))
  }

  lemma MembersStep(m: Member, rest: seq<Member>)
    ensures ReadMembers([m] + rest) == [Read(m)] + ReadMembers(rest)
  {
    assert ([m] + rest)[1..] == rest;
    var repaired := RepairedMembers([m] + rest);
    assert repaired[1..] == RepairedMembers(rest);
  }

  lemma OneMember(m: Member)
    ensures ReadMembers([m]) == [Read(m)]
  {
    MembersStep(m, []);
    assert [m] + [] == [m] && ReadMembers([]) == [];
  }

  lemma {:induction false} MappingsUnchanged(list: seq<Mapping>)
    ensures NormalItems(RepairedItems(MappingItems(list))) == MappingItems(list)
  {
    hide MappingValue;
    if list != [] {
      MappingsUnchanged(list[1..]);
      MappingUnchanged(list[0]);
      assert MappingItems(list)[1..] == MappingItems(list[1..]);
      assert RepairedItems(MappingItems(list))[1..] == RepairedItems(MappingItems(list[1..]));
    }
  }

  lemma {:induction false} OwnersFound(others: seq<Member>, last: Member)
    requires OtherNames(others) && last.key == FRAME_OWNERS
    ensures Lookup(ReadMembers(others + [last]), FRAME_OWNERS) == Some(Normal(RepairedValue(last.value)))
  {
    hide Repaired, ReadMembers;
    if others == [] {
      assert others + [last] == [last];
      OneMember(last);
      RepairedAscii(FRAME_OWNERS);
    } else {
      OwnersFound(others[1..], last);
      assert others + [last] == [others[0]] + (others[1..] + [last]);
      MembersStep(others[0], others[1..] + [last]);
      RepairedAscii(others[0].key);
      assert ([Read(others[0])] + ReadMembers(others[1..] + [last]))[1..] == ReadMembers(others[1..] + [last]);
    }
  }

  /** The host reads the frame owners back from the stored bytes, exactly when every index
      is a 32-bit number. */
  lemma OwnersReadBack(others: seq<Member>, owners: seq<Mapping>)
    requires OtherNames(others)
    ensures ReadOwners(Encode(Print(ObservationOf(others, owners), Mode.Json))) == if AllSmall(owners) then Some(owners) else None
  {
    hide Encode, Decode, Print, ParseText, MappingItems, ReadMappings, RepairedItems, NormalItems, RepairedMembers, NormalMembers,
         AllSmall, OtherNames;
    ObservationReadsBack(ObservationOf(others, owners));
    OwnersFound(others, Member(FRAME_OWNERS, Array(MappingItems(owners))));
    MappingsUnchanged(owners);
    MappingsReadBack(owners);
  }

  /** What the host makes of a capture's frame owners: acceptable exactly when every index
      is a 32-bit number. */
  lemma ListingIsAcceptable(others: seq<Member>, owners: seq<Owner>)
    requires OtherNames(others)
    ensures Transfer.Acceptable(ReadOwners(Encode(Print(ObservationOf(others, Listing(owners)), Mode.Json))))
       <==> AllSmall(Listing(owners))
  {
    hide Encode, Print, ReadOwners, Listing, AllSmall, AllWellFormed, DistinctOriginals, DistinctRetained;
    OwnersReadBack(others, Listing(owners));
    ListingAccepted(owners);
  }

  /** Preparing, planning and collecting an observation when no call fails or interferes. */
  method HandOver(collector: Collector, o: Options, observation: Value, hostLimit: nat)
    returns (plan: Option<Transfer.Plan>, r: Transfer.Result<seq<Byte>>)
    requires ValidStore(collector.observations)
    modifies collector
    ensures ValidStore(collector.observations)
    ensures plan.Some? ==>
      && Key(o.captureId, o.frameId) !in collector.observations
      && (r.Ok? <==> Transfer.Acceptable(ReadOwners(Encode(Print(observation, Mode.Json)))))
    ensures r.Ok? ==> plan.Some? && r.value == Encode(Print(observation, Mode.Json))
  {
    hide Encode, Print, ReadOwners, ValidStore, Key, ChunkCount, Contents, Sha256.Digest, Sha256.Hex, Transfer.Acceptable,
         Transfer.AllDelivered, Transfer.Calm;
    plan, r := None, Transfer.Err(Transfer.ProtocolShape);
    var prepared := collector.BeginPrepare(o, Observed(observation));
    if !prepared.Ready? {
      return;
    }
    var descriptor := collector.FinishPrepare(prepared.stored);
    var planned := Transfer.NewPlan(descriptor, o.captureId, o.frameId, o.maximumChunkBytes, hostLimit);
    if planned.Err? {
      r := Transfer.Err(planned.error);
      return;
    }
    plan := Some(planned.value);
    StoredContents(collector.observations, prepared.stored);
    r := CollectStored(collector, plan.value, prepared.stored);
  }

  /** Collecting what is stored, with every call delivered and none in between. */
  method CollectStored(collector: Collector, plan: Transfer.Plan, stored: Stored) returns (r: Transfer.Result<seq<Byte>>)
    requires ValidStore(collector.observations) && Transfer.ValidPlan(plan) && Transfer.Describes(plan, stored)
    requires Contents(collector.observations, plan.captureId, plan.frameId) == Some(stored)
    modifies collector
    ensures ValidStore(collector.observations) && Key(plan.captureId, plan.frameId) !in collector.observations
    ensures r.Ok? <==> Transfer.Acceptable(ReadOwners(stored.bytes))
    ensures r.Ok? ==> r.value == stored.bytes
  {
    hide ReadOwners, ValidStore, Key, ChunkCount, Contents, Sha256.Digest, Sha256.Hex, Transfer.Acceptable,
         Transfer.AllDelivered, Transfer.Calm, Transfer.ValidCalls;
    Undisputed(plan, stored);
    r := Transfer.CollectFrame(collector, plan, NoCalls, Arrives, ReadOwners, Transfer.Delivered);
  }

  function NoCalls(n: nat): seq<Call> {
    []
  }

  function Arrives(n: nat): Transfer.Delivery {
    Transfer.Delivered
  }

  lemma Undisputed(plan: Transfer.Plan, stored: Stored)
    ensures Transfer.Describes(plan, stored) ==> Transfer.Calm(plan, Some(stored), NoCalls)
    ensures Transfer.AllDelivered(Arrives, 2 * plan.chunks)
    ensures forall n :: Transfer.ValidCalls(NoCalls(n))
  {
  }

  /** A frame from snapshot to payload, when no call fails or interferes: an observation
      that is prepared and planned is handed on exactly when the indices of its frame
      owners are 32-bit numbers, and the host then has its bytes and its frame owners. */
  method CaptureFrame(collector: Collector, pages: Captures.Pages, id: Captures.DocumentId, o: Options, others: seq<Member>,
                      hostLimit: nat)
    returns (captured: Option<Snapshot.Captured>, plan: Option<Transfer.Plan>, r: Transfer.Result<seq<Byte>>)
    requires ValidStore(collector.observations) && OtherNames(others)
    modifies collector
    ensures ValidStore(collector.observations)
    ensures captured.Some? ==> Limited(o)
    ensures plan.Some? ==> captured.Some? && (r.Ok? <==> AllSmall(captured.value.frameOwners))
    ensures r.Ok? ==>
      && captured.Some? && plan.Some? && ReadOwners(r.value) == Some(captured.value.frameOwners)
      && r.value == Encode(Print(ObservationOf(others, captured.value.frameOwners), Mode.Json))
    ensures plan.Some? ==> Key(o.captureId, o.frameId) !in collector.observations
  {
    hide Encode, Print, ReadOwners, Listing, AllSmall, AllWellFormed, DistinctOriginals, DistinctRetained, ValidStore, Key,
         ObservationOf, Captures.OwnersOf, Captures.Consistent, Captures.Shallow, Captures.NodesIn, Captures.Count,
         Transfer.Acceptable;
    captured, plan, r := None, None, Transfer.Err(Transfer.ProtocolShape);
    if !Limited(o) {
      var refused := collector.BeginPrepare(o, LimitExceeded);
      return;
    }
    var thrown; ghost var capture;
    captured, thrown, capture := Snapshot.TakeSnapshot(
      pages, id, o.frameDepth, o.maximumNodes, o.maximumPayloadBytes, o.maximumFrames, o.maximumFrameDepth);
    if captured.None? {
      return;
    }
    plan, r := HandOver(collector, o, ObservationOf(others, captured.value.frameOwners), hostLimit);
    OwnersReadBack(others, captured.value.frameOwners);
    ListingIsAcceptable(others, Captures.OwnersOf(pages, capture));
  }

  lemma StoredContents(store: Store, stored: Stored)
    requires Key(stored.captureId, stored.frameId) in store && store[Key(stored.captureId, stored.frameId)] == stored
    requires stored.acknowledged == {}
    ensures Contents(store, stored.captureId, stored.frameId) == Some(stored)
  {
  }
}
