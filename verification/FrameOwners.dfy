/**
 Paths of frame owner elements: positions in the live documents and positions in the
 serialized copies, where owners that were not retained are left out.
 */
module FrameOwners {
  type Path = seq<nat>

  datatype Mapping = Mapping(originalPath: Path, retainedPath: Path)

  /** A live frame owner: whether its copy was retained, and the owners of the document
      that was copied inline into it. */
  datatype Owner = Owner(retained: bool, frames: seq<Owner>)

  // --- Building the list ---

  function Prefix(originalIndex: nat, retainedIndex: nat, m: Mapping): Mapping {
    Mapping([originalIndex] + m.originalPath, [retainedIndex] + m.retainedPath)
  }

  function Prefixed(originalIndex: nat, retainedIndex: nat, nested: seq<Mapping>): (r: seq<Mapping>)
    ensures |r| == 1 + |nested|
  {
    [Mapping([originalIndex], [retainedIndex])]
    + seq(|nested|, i requires 0 <= i < |nested| => Prefix(originalIndex, retainedIndex, nested[i]))
  }

  method FrameOwnerMappings(originalIndex: nat, retainedIndex: nat, nested: seq<Mapping>) returns (mappings: seq<Mapping>)
    ensures mappings == Prefixed(originalIndex, retainedIndex, nested)
  {
    mappings := [Mapping([originalIndex], [retainedIndex])];
    for index := 0 to |nested|
      invariant |mappings| == 1 + index
      invariant mappings == Prefixed(originalIndex, retainedIndex, nested)[..1 + index]
    {
      var originalPath, retainedPath := [originalIndex], [retainedIndex];
      var nestedMapping := nested[index];
      for pathIndex := 0 to |nestedMapping.originalPath|
        invariant originalPath == [originalIndex] + nestedMapping.originalPath[..pathIndex]
      {
        originalPath := originalPath + [nestedMapping.originalPath[pathIndex]];
      }
      for pathIndex := 0 to |nestedMapping.retainedPath|
        invariant retainedPath == [retainedIndex] + nestedMapping.retainedPath[..pathIndex]
      {
        retainedPath := retainedPath + [nestedMapping.retainedPath[pathIndex]];
      }
      assert Mapping(originalPath, retainedPath) == Prefix(originalIndex, retainedIndex, nestedMapping);
      mappings := mappings + [Mapping(originalPath, retainedPath)];
    }
  }

  function Retained(owners: seq<Owner>): nat {
    if owners == [] then 0
    else Retained(owners[..|owners| - 1]) + if owners[|owners| - 1].retained then 1 else 0
  }

  /** The list for a document: every retained owner, each followed by the owners of its
      own document. */
  function Listing(owners: seq<Owner>): seq<Mapping> {
    if owners == [] then []
    else
      var front, last := owners[..|owners| - 1], owners[|owners| - 1];
      Listing(front) + if last.retained then Prefixed(|front|, Retained(front), Listing(last.frames)) else []
  }

  /** One owner as the collector sees it: retained or not, with the list of its document. */
  datatype LiveOwner = LiveOwner(retained: bool, nested: seq<Mapping>)

  ghost predicate Describes(live: seq<LiveOwner>, owners: seq<Owner>) {
    |live| == |owners|
    && forall i :: 0 <= i < |live| ==>
         live[i].retained == owners[i].retained && live[i].nested == Listing(owners[i].frames)
  }

  method CollectFrameOwners(live: seq<LiveOwner>, ghost owners: seq<Owner>) returns (frameOwners: seq<Mapping>)
    requires Describes(live, owners)
    ensures frameOwners == Listing(owners)
  {
    frameOwners := [];
    var retainedIndex := 0;
    for originalIndex := 0 to |live|
      invariant retainedIndex == Retained(owners[..originalIndex])
      invariant frameOwners == Listing(owners[..originalIndex])
    {
      assert owners[..originalIndex + 1][..originalIndex] == owners[..originalIndex];
      if live[originalIndex].retained {
        var mappings := FrameOwnerMappings(originalIndex, retainedIndex, live[originalIndex].nested);
        frameOwners := frameOwners + mappings;
        retainedIndex := retainedIndex + 1;
      }
    }
    assert owners[..|live|] == owners;
  }

  // --- What the list means ---

  /** Where a live owner ends up: at every level, its rank among the retained owners. */
  function RetainedPath(owners: seq<Owner>, path: Path): (r: Path)
    requires Survives(owners, path)
    decreases path
  {
    var rank := Retained(owners[..path[0]]);
    if |path| == 1 then [rank] else [rank] + RetainedPath(owners[path[0]].frames, path[1..])
  }

  /** The owner and every owner around it exist and are retained. */
  predicate Survives(owners: seq<Owner>, path: Path)
    decreases path
  {
    && path != [] && path[0] < |owners| && owners[path[0]].retained
    && (|path| > 1 ==> Survives(owners[path[0]].frames, path[1..]))
  }

  lemma SurvivesFront(owners: seq<Owner>, path: Path)
    requires owners != [] && path != [] && path[0] < |owners| - 1
    ensures Survives(owners, path) == Survives(owners[..|owners| - 1], path)
    ensures Survives(owners, path) ==> RetainedPath(owners, path) == RetainedPath(owners[..|owners| - 1], path)
  {
    assert owners[..|owners| - 1][..path[0]] == owners[..path[0]];
  }

  ghost predicate Correct(owners: seq<Owner>, m: Mapping) {
    Survives(owners, m.originalPath) && m.retainedPath == RetainedPath(owners, m.originalPath)
  }

  lemma InPrefixed(originalIndex: nat, retainedIndex: nat, nested: seq<Mapping>, m: Mapping)
    ensures m in Prefixed(originalIndex, retainedIndex, nested) <==>
      || m == Mapping([originalIndex], [retainedIndex])
      || (m.originalPath != [] && m.retainedPath != [] && m.originalPath[0] == originalIndex && m.retainedPath[0] == retainedIndex
          && Mapping(m.originalPath[1..], m.retainedPath[1..]) in nested)
  {
    var list := Prefixed(originalIndex, retainedIndex, nested);
    if m in list {
      var i :| 0 <= i < |list| && list[i] == m;
      if i > 0 {
        assert m == Prefix(originalIndex, retainedIndex, nested[i - 1]);
        assert m.originalPath[1..] == nested[i - 1].originalPath && m.retainedPath[1..] == nested[i - 1].retainedPath;
      }
    }
    assert list[0] == Mapping([originalIndex], [retainedIndex]);
    if m.originalPath != [] && m.retainedPath != [] && m.originalPath[0] == originalIndex && m.retainedPath[0] == retainedIndex {
      var tail := Mapping(m.originalPath[1..], m.retainedPath[1..]);
      assert Prefix(originalIndex, retainedIndex, tail) == m;
      if tail in nested {
        var i :| 0 <= i < |nested| && nested[i] == tail;
        assert list[i + 1] == m;
      }
    }
  }

  /** Whether a mapping whose path starts at the last owner is correct depends on the
      document inside that owner only. */
  lemma CorrectAtLast(owners: seq<Owner>, m: Mapping)
    requires owners != [] && m.originalPath != [] && m.originalPath[0] == |owners| - 1
    ensures
      var front, last := owners[..|owners| - 1], owners[|owners| - 1];
      Correct(owners, m) <==>
        && last.retained
        && (|| m == Mapping([|front|], [Retained(front)])
            || (m.retainedPath != [] && m.retainedPath[0] == Retained(front)
                && Correct(last.frames, Mapping(m.originalPath[1..], m.retainedPath[1..]))))
  {
    var front, last := owners[..|owners| - 1], owners[|owners| - 1];
    if |m.originalPath| == 1 {
      assert m.originalPath == [|front|];
    } else if Survives(owners, m.originalPath) {
      var inner := RetainedPath(last.frames, m.originalPath[1..]);
      assert RetainedPath(owners, m.originalPath) == [Retained(front)] + inner;
      if m.retainedPath != [] && m.retainedPath[0] == Retained(front) && m.retainedPath[1..] == inner {
        assert m.retainedPath == [Retained(front)] + inner;
      }
    }
  }

  /** The list holds exactly the retained owners, each with the path its copy has. */
  lemma {:induction false} ListingExact(owners: seq<Owner>, m: Mapping)
    ensures m in Listing(owners) <==> Correct(owners, m)
    decreases owners
  {
    if owners != [] {
      var front, last := owners[..|owners| - 1], owners[|owners| - 1];
      ListingExact(front, m);
      InPrefixed(|front|, Retained(front), Listing(last.frames), m);
      if m.originalPath != [] {
        ListingExact(last.frames, Mapping(m.originalPath[1..], if m.retainedPath == [] then [] else m.retainedPath[1..]));
        if m.originalPath[0] < |front| {
          SurvivesFront(owners, m.originalPath);
        } else if m.originalPath[0] == |front| {
          CorrectAtLast(owners, m);
        }
      }
    }
  }

  // --- Order and uniqueness ---

  /** Document order: an owner comes before everything inside it. */
  predicate Before(p: Path, q: Path) {
    q != [] && (p == [] || p[0] < q[0] || (p[0] == q[0] && Before(p[1..], q[1..])))
  }

  lemma {:induction false} BeforeIsStrict(p: Path)
    ensures !Before(p, p)
  {
    if p != [] {
      BeforeIsStrict(p[1..]);
    }
  }

  predicate WellFormed(m: Mapping) {
    m.originalPath != [] && m.retainedPath != [] && |m.originalPath| == |m.retainedPath|
  }

  ghost predicate Ordered(list: seq<Mapping>) {
    forall i, j :: 0 <= i < j < |list| ==>
      Before(list[i].originalPath, list[j].originalPath) && Before(list[i].retainedPath, list[j].retainedPath)
  }

  ghost predicate AllWellFormed(list: seq<Mapping>) {
    forall i :: 0 <= i < |list| ==> WellFormed(list[i])
  }

  /** Every path of the list starts below the bounds. */
  ghost predicate Below(list: seq<Mapping>, original: nat, retained: nat) {
    forall i :: 0 <= i < |list| ==> WellFormed(list[i]) && list[i].originalPath[0] < original && list[i].retainedPath[0] < retained
  }

  /** Every path of the list starts at the given positions. */
  ghost predicate StartsAt(list: seq<Mapping>, original: nat, retained: nat) {
    forall i :: 0 <= i < |list| ==> WellFormed(list[i]) && list[i].originalPath[0] == original && list[i].retainedPath[0] == retained
  }

  lemma PrefixKeepsOrder(originalIndex: nat, retainedIndex: nat, a: Mapping, b: Mapping)
    requires Before(a.originalPath, b.originalPath) && Before(a.retainedPath, b.retainedPath)
    ensures
      var c, d := Prefix(originalIndex, retainedIndex, a), Prefix(originalIndex, retainedIndex, b);
      Before(c.originalPath, d.originalPath) && Before(c.retainedPath, d.retainedPath)
  {
    var c, d := Prefix(originalIndex, retainedIndex, a), Prefix(originalIndex, retainedIndex, b);
    assert c.originalPath[1..] == a.originalPath && d.originalPath[1..] == b.originalPath;
    assert c.retainedPath[1..] == a.retainedPath && d.retainedPath[1..] == b.retainedPath;
  }

  lemma PrefixedOrdered(originalIndex: nat, retainedIndex: nat, nested: seq<Mapping>)
    requires Ordered(nested) && AllWellFormed(nested)
    ensures Ordered(Prefixed(originalIndex, retainedIndex, nested))
    ensures StartsAt(Prefixed(originalIndex, retainedIndex, nested), originalIndex, retainedIndex)
  {
    var list := Prefixed(originalIndex, retainedIndex, nested);
    forall i, j | 0 <= i < j < |list|
      ensures Before(list[i].originalPath, list[j].originalPath) && Before(list[i].retainedPath, list[j].retainedPath)
    {
      if i > 0 {
        PrefixKeepsOrder(originalIndex, retainedIndex, nested[i - 1], nested[j - 1]);
      } else {
        assert list[j] == Prefix(originalIndex, retainedIndex, nested[j - 1]);
        assert list[j].originalPath[1..] == nested[j - 1].originalPath;
        assert list[j].retainedPath[1..] == nested[j - 1].retainedPath;
        assert WellFormed(nested[j - 1]);
      }
    }
  }

  lemma JoinOrdered(a: seq<Mapping>, b: seq<Mapping>, original: nat, retained: nat)
    requires Ordered(a) && Ordered(b) && Below(a, original, retained) && StartsAt(b, original, retained)
    ensures Ordered(a + b) && Below(a + b, original + 1, retained + 1)
  {
    var list := a + b;
    forall i, j | 0 <= i < j < |list|
      ensures Before(list[i].originalPath, list[j].originalPath) && Before(list[i].retainedPath, list[j].retainedPath)
    {
      if j < |a| {
        assert list[i] == a[i] && list[j] == a[j];
      } else if i >= |a| {
        assert list[i] == b[i - |a|] && list[j] == b[j - |a|];
      } else {
        assert list[i] == a[i] && list[j] == b[j - |a|];
      }
    }
  }

  /** Original and retained paths both follow document order, and have matching depths. */
  lemma {:induction false} ListingOrdered(owners: seq<Owner>)
    ensures Ordered(Listing(owners)) && AllWellFormed(Listing(owners))
    ensures Below(Listing(owners), |owners|, Retained(owners))
    decreases owners
  {
    if owners != [] {
      var front, last := owners[..|owners| - 1], owners[|owners| - 1];
      ListingOrdered(front);
      if last.retained {
        ListingOrdered(last.frames);
        PrefixedOrdered(|front|, Retained(front), Listing(last.frames));
        JoinOrdered(Listing(front), Prefixed(|front|, Retained(front), Listing(last.frames)), |front|, Retained(front));
      } else {
        assert Listing(front) + [] == Listing(front);
      }
    }
  }

  // --- The host's check ---

  ghost predicate DistinctOriginals(list: seq<Mapping>) {
    forall i, j :: 0 <= i < j < |list| ==> list[i].originalPath != list[j].originalPath
  }

  ghost predicate DistinctRetained(list: seq<Mapping>) {
    forall i, j :: 0 <= i < j < |list| ==> list[i].retainedPath != list[j].retainedPath
  }

  method ValidateFrameOwnerPaths(owners: seq<Mapping>) returns (ok: bool)
    ensures ok <==> AllWellFormed(owners) && DistinctOriginals(owners) && DistinctRetained(owners)
  {
    var originalPaths: set<Path>, retainedPaths: set<Path> := {}, {};
    for index := 0 to |owners|
      invariant originalPaths == set i | 0 <= i < index :: owners[i].originalPath
      invariant retainedPaths == set i | 0 <= i < index :: owners[i].retainedPath
      invariant AllWellFormed(owners[..index]) && DistinctOriginals(owners[..index]) && DistinctRetained(owners[..index])
    {
      var owner := owners[index];
      if owner.originalPath == [] || owner.retainedPath == [] || |owner.originalPath| != |owner.retainedPath| {
        assert !WellFormed(owners[index]);
        return false;
      }
      if owner.originalPath in originalPaths {
        return false;
      }
      originalPaths := originalPaths + {owner.originalPath};
      if owner.retainedPath in retainedPaths {
        return false;
      }
      retainedPaths := retainedPaths + {owner.retainedPath};
    }
    assert owners[..|owners|] == owners;
    return true;
  }

  /** The host accepts every list the collector builds. */
  lemma ListingAccepted(owners: seq<Owner>)
    ensures AllWellFormed(Listing(owners)) && DistinctOriginals(Listing(owners)) && DistinctRetained(Listing(owners))
  {
    var list := Listing(owners);
    ListingOrdered(owners);
    forall i, j | 0 <= i < j < |list|
      ensures list[i].originalPath != list[j].originalPath && list[i].retainedPath != list[j].retainedPath
    {
      BeforeIsStrict(list[i].originalPath);
      BeforeIsStrict(list[i].retainedPath);
    }
  }
}
