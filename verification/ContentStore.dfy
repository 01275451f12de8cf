/**
 Resource bodies arrive as streams and are stored once per digest. Counters record what
 was received and what is stored.
 */
module ContentStore {
  import opened Text
  import Sha256

  type Digest = seq<Byte>

  const U64_MAX: nat := 0xFFFF_FFFF_FFFF_FFFF

  datatype StoredContent = StoredContent(digest: Digest, bytes: nat)

  datatype Failure = LimitFailure | StoreFailure | StreamFailure

  datatype Inserted = Inserted(content: StoredContent, newContent: bool) | Rejected(failure: Failure)

  /** What the stream yields next, and whether writing it to the temporary file fails. */
  datatype Item = Data(chunk: seq<Byte>, writeFails: bool) | StreamFails

  /** The file system's other chances to fail. */
  datatype Faults = Faults(creating: bool, flushing: bool, persisting: bool)

  // --- What a stream amounts to ---

  function Body(items: seq<Item>): seq<Byte> {
    if items == [] then []
    else
      var last := items[|items| - 1];
      Body(items[..|items| - 1]) + if last.Data? then last.chunk else []
  }

  ghost predicate Clean(items: seq<Item>) {
    forall i :: 0 <= i < |items| ==> items[i].Data? && !items[i].writeFails
  }

  /** The limits are looked at once per chunk: a stream without chunks passes any. */
  ghost predicate WithinLimits(items: seq<Item>, received: nat, maximumResource: nat, maximumTotal: nat) {
    items == [] || (|Body(items)| <= maximumResource && received + |Body(items)| <= maximumTotal)
  }

  /** How a body is divided into chunks decides whether it is within the limits in one case
      only: the received bytes are over the total limit and one of the streams has no
      chunk at all, which is then accepted although the other is not. */
  lemma ChunkingDecidesOnlyWithoutChunks(a: seq<Item>, b: seq<Item>, received: nat, maximumResource: nat, maximumTotal: nat)
    requires Body(a) == Body(b)
    ensures WithinLimits(a, received, maximumResource, maximumTotal) != WithinLimits(b, received, maximumResource, maximumTotal)
       <==> (a == []) != (b == []) && received > maximumTotal
    ensures received > maximumTotal ==>
      && WithinLimits([], received, maximumResource, maximumTotal)
      && !WithinLimits([Data([], false)], received, maximumResource, maximumTotal) && Body([Data([], false)]) == Body([])
  {
    assert [Data([], false)][..0] == [];
  }

  lemma {:induction false} BodyGrows(items: seq<Item>, count: nat)
    requires count <= |items|
    ensures |Body(items[..count])| <= |Body(items)|
    decreases |items|
  {
    if count < |items| {
      var front := items[..|items| - 1];
      BodyGrows(front, count);
      assert front[..count] == items[..count];
    } else {
      assert items[..count] == items;
    }
  }

  /** The counter after the stream: every chunk that was looked at counts, the one that
      breaks a limit included, unless the count itself would overflow. */
  function ReceivedAfter(items: seq<Item>, resource: nat, received: nat, maximumResource: nat, maximumTotal: nat): (r: nat)
    ensures received <= r
    ensures received <= U64_MAX ==> r <= U64_MAX
    decreases |items|
  {
    if items == [] || items[0].StreamFails? then received
    else
      var n := |items[0].chunk|;
      if resource + n > U64_MAX || received + n > U64_MAX then received
      else if resource + n > maximumResource || received + n > maximumTotal || items[0].writeFails then received + n
      else ReceivedAfter(items[1..], resource + n, received + n, maximumResource, maximumTotal)
  }

  // --- Sum of the stored sizes ---

  ghost function Sizes(entries: map<Digest, StoredContent>, keys: set<Digest>): nat
    requires keys <= entries.Keys
  {
    if keys == {} then 0
    else
      var k :| k in keys;
      entries[k].bytes + Sizes(entries, keys - {k})
  }

  lemma {:induction false} SizesWithout(entries: map<Digest, StoredContent>, keys: set<Digest>, d: Digest)
    requires keys <= entries.Keys && d in keys
    ensures Sizes(entries, keys) == entries[d].bytes + Sizes(entries, keys - {d})
    decreases keys
  {
    var k :| k in keys && Sizes(entries, keys) == entries[k].bytes + Sizes(entries, keys - {k});
    if k != d {
      SizesWithout(entries, keys - {k}, d);
      SizesWithout(entries, keys - {d}, k);
      assert keys - {k} - {d} == keys - {d} - {k};
    }
  }

  lemma {:induction false} SizesSame(entries: map<Digest, StoredContent>, others: map<Digest, StoredContent>, keys: set<Digest>)
    requires keys <= entries.Keys && keys <= others.Keys && forall k :: k in keys ==> entries[k] == others[k]
    ensures Sizes(entries, keys) == Sizes(others, keys)
    decreases keys
  {
    if keys != {} {
      var k :| k in keys;
      SizesWithout(entries, keys, k);
      SizesWithout(others, keys, k);
      SizesSame(entries, others, keys - {k});
    }
  }

  lemma SizesInsert(entries: map<Digest, StoredContent>, d: Digest, content: StoredContent)
    requires d !in entries
    ensures Sizes(entries[d := content], entries[d := content].Keys) == Sizes(entries, entries.Keys) + content.bytes
  {
    var after := entries[d := content];
    SizesWithout(after, after.Keys, d);
    assert after.Keys - {d} == entries.Keys;
    SizesSame(entries, after, entries.Keys);
  }

  class ContentStore {
    var entries: map<Digest, StoredContent>
    var files: map<Digest, seq<Byte>>
    var receivedBytes: nat
    var uniqueBytes: nat

    /** The unique bytes are the stored sizes and were all received; every entry's file
        has the entry's size and digest. */
    ghost predicate Valid()
      reads this
    {
      && receivedBytes <= U64_MAX
      && uniqueBytes == Sizes(entries, entries.Keys) && uniqueBytes <= receivedBytes
      && forall d :: d in entries ==>
           d in files && entries[d] == StoredContent(d, |files[d]|) && Sha256.Digest(files[d]) == d
    }

    constructor ()
      ensures Valid() && entries == map[] && receivedBytes == uniqueBytes == 0
    {
      entries, files, receivedBytes, uniqueBytes := map[], map[], 0, 0;
    }

    /** Read the stream to its end or its first failure, counting as it goes. */
    method ReceiveStream(items: seq<Item>, maximumResource: nat, maximumTotal: nat) returns (failure: Option<Failure>, hashed: seq<Byte>)
      requires Valid() && maximumResource <= U64_MAX && maximumTotal <= U64_MAX
      modifies this`receivedBytes
      ensures Valid()
      ensures receivedBytes == ReceivedAfter(items, 0, old(receivedBytes), maximumResource, maximumTotal)
      ensures failure.None? <==> Clean(items) && WithinLimits(items, old(receivedBytes), maximumResource, maximumTotal)
      ensures failure.None? ==> hashed == Body(items) && receivedBytes == old(receivedBytes) + |hashed|
    {
      hide Sha256.Digest, Sizes, Body, Clean, WithinLimits, ReceivedAfter;
      hashed := [];
      var resourceBytes := 0;
      NothingReceived(items);
      for index := 0 to |items|
        invariant Clean(items[..index]) && hashed == Body(items[..index]) && resourceBytes == |hashed|
        invariant receivedBytes == old(receivedBytes) + resourceBytes <= U64_MAX && uniqueBytes <= receivedBytes
        invariant index > 0 ==> resourceBytes <= maximumResource && receivedBytes <= maximumTotal
        invariant ReceivedAfter(items[index..], resourceBytes, receivedBytes, maximumResource, maximumTotal)
               == ReceivedAfter(items, 0, old(receivedBytes), maximumResource, maximumTotal)
      {
        var item := items[index];
        BodyStep(items, index);
        CleanStep(items, index);
        CountStep(items, index, resourceBytes, receivedBytes, maximumResource, maximumTotal);
        Exceeds(items, index, old(receivedBytes), maximumResource, maximumTotal);
        if item.StreamFails? {
          return Some(StreamFailure), hashed;
        }
        var chunkBytes := |item.chunk|;
        if resourceBytes + chunkBytes > U64_MAX {
          return Some(LimitFailure), hashed;
        }
        resourceBytes := resourceBytes + chunkBytes;
        if receivedBytes + chunkBytes > U64_MAX {
          return Some(LimitFailure), hashed;
        }
        receivedBytes := receivedBytes + chunkBytes;
        if resourceBytes > maximumResource || receivedBytes > maximumTotal {
          return Some(LimitFailure), hashed;
        }
        hashed := hashed + item.chunk;
        if item.writeFails {
          return Some(StoreFailure), hashed;
        }
      }
      AllReceived(items, old(receivedBytes), maximumResource, maximumTotal);
      failure := None;
    }

    /** A stream is stored exactly when nothing fails and it is within the limits, under
        the digest of its concatenation; whatever happens, entries are never changed or
        lost, and the sum of their sizes never overflows. */
    method InsertStream(items: seq<Item>, faults: Faults, maximumResource: nat, maximumTotal: nat) returns (r: Inserted)
      requires Valid() && maximumResource <= U64_MAX && maximumTotal <= U64_MAX
      modifies this
      ensures Valid()
      ensures receivedBytes == if faults.creating then old(receivedBytes)
                               else ReceivedAfter(items, 0, old(receivedBytes), maximumResource, maximumTotal)
      ensures r.Inserted? <==>
        && !faults.creating && Clean(items) && WithinLimits(items, old(receivedBytes), maximumResource, maximumTotal)
        && !faults.flushing && (Sha256.Digest(Body(items)) in old(entries) || !faults.persisting)
      ensures r.Rejected? ==> entries == old(entries) && files == old(files) && uniqueBytes == old(uniqueBytes)
      ensures r.Inserted? ==>
        var digest := Sha256.Digest(Body(items));
        && digest in entries && r.content == entries[digest]
        && r.newContent == (digest !in old(entries))
        && entries == (if r.newContent then old(entries)[digest := StoredContent(digest, |Body(items)|)] else old(entries))
        && files == (if r.newContent then old(files)[digest := Body(items)] else old(files))
        && uniqueBytes == old(uniqueBytes) + (if r.newContent then |Body(items)| else 0)
    {
      hide Sha256.Digest, Sizes, Body, Clean, WithinLimits, ReceivedAfter;
      if faults.creating {
        return Rejected(StoreFailure);
      }
      var failure, hashed := ReceiveStream(items, maximumResource, maximumTotal);
      if failure.Some? {
        return Rejected(failure.value);
      }
      if faults.flushing {
        return Rejected(StoreFailure);
      }
      var digest := Sha256.Digest(hashed);
      if digest in entries {
        return Inserted(entries[digest], false);
      }
      if faults.persisting {
        return Rejected(StoreFailure);
      }
      var content := StoredContent(digest, |hashed|);
      if uniqueBytes + content.bytes > U64_MAX {
        return Rejected(LimitFailure);
      }
      SizesInsert(entries, digest, content);
      uniqueBytes := uniqueBytes + content.bytes;
      files := files[digest := hashed];
      entries := entries[digest := content];
      return Inserted(content, true);
    }
  }

  lemma BodyStep(items: seq<Item>, index: nat)
    requires index < |items|
    ensures Body(items[..index + 1]) == Body(items[..index]) + (if items[index].Data? then items[index].chunk else [])
    ensures |Body(items[..index + 1])| <= |Body(items)|
  {
    assert items[..index + 1][..index] == items[..index];
    BodyGrows(items, index + 1);
  }

  lemma NothingReceived(items: seq<Item>)
    ensures items[..0] == [] && Body([]) == [] && Clean([]) && items[0..] == items
  {
  }

  lemma CleanStep(items: seq<Item>, index: nat)
    requires index < |items|
    ensures items[index].Data? && !items[index].writeFails ==> (Clean(items[..index]) ==> Clean(items[..index + 1]))
    ensures items[index].StreamFails? || items[index].writeFails ==> !Clean(items)
  {
  }

  lemma CountStep(items: seq<Item>, index: nat, resource: nat, received: nat, maximumResource: nat, maximumTotal: nat)
    requires index < |items|
    ensures ReceivedAfter(items[index..], resource, received, maximumResource, maximumTotal) ==
      if items[index].StreamFails? then received
      else
        var n := |items[index].chunk|;
        if resource + n > U64_MAX || received + n > U64_MAX then received
        else if resource + n > maximumResource || received + n > maximumTotal || items[index].writeFails then received + n
        else ReceivedAfter(items[index + 1..], resource + n, received + n, maximumResource, maximumTotal)
  {
    assert items[index..][0] == items[index] && items[index..][1..] == items[index + 1..];
  }

  /** A prefix over a limit means that the whole stream is. */
  lemma Exceeds(items: seq<Item>, index: nat, received: nat, maximumResource: nat, maximumTotal: nat)
    requires index < |items|
    ensures |Body(items[..index + 1])| > maximumResource || received + |Body(items[..index + 1])| > maximumTotal ==>
      !WithinLimits(items, received, maximumResource, maximumTotal)
  {
    BodyGrows(items, index + 1);
  }

  lemma AllReceived(items: seq<Item>, received: nat, maximumResource: nat, maximumTotal: nat)
    ensures items[..|items|] == items && items[|items|..] == []
    ensures ReceivedAfter([], |Body(items)|, received + |Body(items)|, maximumResource, maximumTotal) == received + |Body(items)|
    ensures (items != [] ==> |Body(items)| <= maximumResource && received + |Body(items)| <= maximumTotal) ==>
      WithinLimits(items, received, maximumResource, maximumTotal)
  {
  }

  /** A stream with what may go wrong and the limits it is given. */
  datatype Upload = Upload(items: seq<Item>, faults: Faults, maximumResource: nat, maximumTotal: nat)

  ghost predicate Fits64(u: Upload) {
    u.maximumResource <= U64_MAX && u.maximumTotal <= U64_MAX
  }

  /** Streams with the same concatenation share one entry, however they are divided into
      chunks, and whatever is stored, rejected or fails between them. */
  method InsertTwice(store: ContentStore, first: Upload, others: seq<Upload>, second: Upload) returns (a: Inserted, b: Inserted)
    requires store.Valid() && Fits64(first) && Fits64(second) && forall i :: 0 <= i < |others| ==> Fits64(others[i])
    modifies store
    ensures store.Valid()
    ensures a.Inserted? && b.Inserted? && Body(first.items) == Body(second.items) ==> b.content == a.content && !b.newContent
  {
    hide Sha256.Digest, Body, Clean, WithinLimits, ReceivedAfter, Sizes;
    a := store.InsertStream(first.items, first.faults, first.maximumResource, first.maximumTotal);
    ghost var entries := store.entries;
    for index := 0 to |others|
      invariant store.Valid() && forall d :: d in entries ==> d in store.entries && store.entries[d] == entries[d]
    {
      var u := others[index];
      var ignored := store.InsertStream(u.items, u.faults, u.maximumResource, u.maximumTotal);
    }
    b := store.InsertStream(second.items, second.faults, second.maximumResource, second.maximumTotal);
  }
}
