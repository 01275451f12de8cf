/** Where a repaired document carries its record. */
module RepairHead {
  import opened Text
  import opened Writer
  import opened Dom
  import opened Html
  import opened RepairDocument
  import RD = RepairData
  import RM = RepairMachine
  import RT = RepairText
  import Escape
  import Json
  import Repair
  import FO = FrameOwners

  /** The node at a path of child positions, outside template content. */
  ghost function NodeAt(nodes: seq<Node>, path: FO.Path): Option<Node>
    decreases |path|
  {
    if path == [] || path[0] >= |nodes| then None
    else if |path| == 1 then Some(nodes[path[0]])
    else if nodes[path[0]].Element? then NodeAt(nodes[path[0]].children, path[1..])
    else None
  }

  ghost predicate ElementAt(nodes: seq<Node>, path: FO.Path) {
    NodeAt(nodes, path).Some? && NodeAt(nodes, path).value.Element?
  }

  ghost predicate HeadAt(nodes: seq<Node>, path: FO.Path) {
    ElementAt(nodes, path) && NodeAt(nodes, path).value.name == Ascii("head")
  }

  ghost predicate NoHead(nodes: seq<Node>) {
    forall path :: !HeadAt(nodes, path)
  }

  /** The head that comes before every other one in document order. */
  ghost predicate FirstHead(nodes: seq<Node>, path: FO.Path) {
    HeadAt(nodes, path) && forall other :: HeadAt(nodes, other) && other != path ==> FO.Before(path, other)
  }

  /** The forest with one more child at the end of the element at `path`. */
  ghost function AppendAt(nodes: seq<Node>, path: FO.Path, child: Node): seq<Node>
    requires ElementAt(nodes, path)
    decreases |path|
  {
    var node := nodes[path[0]];
    nodes[path[0] := if |path| == 1 then node.(children := node.children + [child])
                     else node.(children := AppendAt(node.children, path[1..], child))]
  }

  /** A node without its children. */
  ghost function Shell(node: Node): Node {
    if node.Element? then node.(children := []) else node
  }

  /** Appending adds the child at its place and what is below it, moves nothing and
      changes no other node. */
  lemma {:induction false} AppendAtAddsOne(nodes: seq<Node>, path: FO.Path, child: Node, other: FO.Path)
    requires ElementAt(nodes, path)
    ensures var after, place := AppendAt(nodes, path, child), path + [|NodeAt(nodes, path).value.children|];
      && NodeAt(after, place) == Some(child)
      && (NodeAt(nodes, other).Some? ==>
            NodeAt(after, other).Some? && Shell(NodeAt(after, other).value) == Shell(NodeAt(nodes, other).value))
      && (NodeAt(after, other).Some? ==> NodeAt(nodes, other).Some? || place <= other)
    decreases |path|
  {
    var node, count := nodes[path[0]], |NodeAt(nodes, path).value.children|;
    var place := path + [count];
    assert place[1..] == path[1..] + [count] && place[0] == path[0];
    if |path| == 1 {
      var kids := node.children + [child];
      assert kids[..count] == node.children;
      if |other| > 1 && other[0] == path[0] {
        BelowAppended(node.children, child, other[1..]);
      }
    } else {
      AppendAtAddsOne(node.children, path[1..], child, if other == [] then [] else other[1..]);
      if |other| > 1 && other[0] == path[0] && place[1..] <= other[1..] {
        assert place <= other;
      }
    }
  }

  lemma BelowAppended(kids: seq<Node>, child: Node, other: FO.Path)
    requires other != []
    ensures NodeAt(kids, other).Some? ==> NodeAt(kids + [child], other) == NodeAt(kids, other)
    ensures NodeAt(kids + [child], other).Some? ==> NodeAt(kids, other).Some? || other[0] == |kids|
  {
  }

  lemma HeadBelow(nodes: seq<Node>, path: FO.Path)
    requires nodes != []
    ensures HeadAt(nodes, path) <==>
      path != []
      && if path[0] > 0 then HeadAt(nodes[1..], [path[0] - 1] + path[1..])
         else if |path| == 1 then nodes[0].Element? && nodes[0].name == Ascii("head")
         else nodes[0].Element? && HeadAt(nodes[0].children, path[1..])
  {
    if path != [] && path[0] > 0 {
      var shifted := [path[0] - 1] + path[1..];
      assert shifted[1..] == path[1..];
      if path[0] < |nodes| {
        assert nodes[1..][path[0] - 1] == nodes[path[0]];
      }
    }
  }

  /** The record goes to the first head in document order, and there is none to take it
      exactly when the tree has no head. */
  lemma {:induction false} AppendsToFirstHead(nodes: seq<Node>, script: Node) returns (path: FO.Path)
    ensures AppendToHead(nodes, script).None? <==> NoHead(nodes)
    ensures AppendToHead(nodes, script).Some? ==>
      FirstHead(nodes, path) && AppendToHead(nodes, script).value == AppendAt(nodes, path, script)
  {
    hide HeadAt, AppendAt, FO.Before;
    path := [];
    if nodes == [] {
      NothingBelow();
    } else {
      var node, rest := nodes[0], nodes[1..];
      if node.Element? && node.name == HEAD {
        path := [0];
        AtFront(nodes, script);
      } else {
        var inside: FO.Path := [];
        if node.Element? {
          inside := AppendsToFirstHead(node.children, script);
        }
        var after := AppendsToFirstHead(rest, script);
        if node.Element? && AppendToHead(node.children, script).Some? {
          path := [0] + inside;
          InsideFront(nodes, inside, script);
        } else {
          NotInFront(nodes);
          if AppendToHead(rest, script).Some? {
            PathNotEmpty(rest, after);
            path := [after[0] + 1] + after[1..];
            PastFront(nodes, after, script);
          }
        }
      }
    }
  }

  lemma NothingBelow()
    ensures NoHead([])
  {
  }

  lemma AtFront(nodes: seq<Node>, script: Node)
    requires nodes != [] && nodes[0].Element? && nodes[0].name == Ascii("head")
    ensures FirstHead(nodes, [0])
    ensures AppendAt(nodes, [0], script) == [nodes[0].(children := nodes[0].children + [script])] + nodes[1..]
  {
    assert HeadAt(nodes, [0]);
    forall other | HeadAt(nodes, other) && other != [0]
      ensures FO.Before([0], other)
    {
      assert other[0] == 0 ==> [0][1..] == [] && other[1..] != [];
    }
  }

  lemma InsideFront(nodes: seq<Node>, inside: FO.Path, script: Node)
    requires nodes != [] && nodes[0].Element? && nodes[0].name != Ascii("head") && FirstHead(nodes[0].children, inside)
    ensures FirstHead(nodes, [0] + inside)
    ensures AppendAt(nodes, [0] + inside, script)
            == [nodes[0].(children := AppendAt(nodes[0].children, inside, script))] + nodes[1..]
  {
    hide HeadAt;
    var path := [0] + inside;
    assert path[1..] == inside;
    PathNotEmpty(nodes[0].children, inside);
    HeadBelow(nodes, path);
    Elementary(nodes, path);
    forall other | HeadAt(nodes, other) && other != path
      ensures FO.Before(path, other)
    {
      HeadBelow(nodes, other);
      if other[0] == 0 {
        assert other == [0] + other[1..];
      }
    }
  }

  lemma PathNotEmpty(nodes: seq<Node>, path: FO.Path)
    requires HeadAt(nodes, path)
    ensures path != [] && path[0] < |nodes|
  {
  }

  lemma Elementary(nodes: seq<Node>, path: FO.Path)
    requires HeadAt(nodes, path)
    ensures ElementAt(nodes, path)
  {
  }

  lemma NotInFront(nodes: seq<Node>)
    requires nodes != [] && !(nodes[0].Element? && nodes[0].name == Ascii("head"))
    requires nodes[0].Element? ==> NoHead(nodes[0].children)
    ensures NoHead(nodes) <==> NoHead(nodes[1..])
  {
    hide HeadAt;
    if NoHead(nodes[1..]) {
      forall path
        ensures !HeadAt(nodes, path)
      {
        HeadBelow(nodes, path);
      }
    }
    if NoHead(nodes) {
      forall path
        ensures !HeadAt(nodes[1..], path)
      {
        if HeadAt(nodes[1..], path) {
          PathNotEmpty(nodes[1..], path);
          var shifted := [path[0] + 1] + path[1..];
          assert [shifted[0] - 1] + shifted[1..] == path;
          HeadBelow(nodes, shifted);
        }
      }
    }
  }

  lemma PastFront(nodes: seq<Node>, after: FO.Path, script: Node)
    requires nodes != [] && !(nodes[0].Element? && nodes[0].name == Ascii("head"))
    requires nodes[0].Element? ==> NoHead(nodes[0].children)
    requires FirstHead(nodes[1..], after)
    ensures after != []
    ensures var path := [after[0] + 1] + after[1..];
      FirstHead(nodes, path) && AppendAt(nodes, path, script) == [nodes[0]] + AppendAt(nodes[1..], after, script)
  {
    hide HeadAt;
    PathNotEmpty(nodes[1..], after);
    var path := [after[0] + 1] + after[1..];
    assert [path[0] - 1] + path[1..] == after && path[1..] == after[1..];
    HeadBelow(nodes, path);
    Elementary(nodes, path);
    forall other | HeadAt(nodes, other) && other != path
      ensures FO.Before(path, other)
    {
      HeadBelow(nodes, other);
      assert other[0] > 0;
      var back := [other[0] - 1] + other[1..];
      assert back[1..] == other[1..] && back[0] == other[0] - 1;
      assert other == [other[0]] + other[1..] && path == [path[0]] + path[1..];
    }
    assert nodes[1..][after[0]] == nodes[path[0]];
  }

  // --- Marking keeps the heads ---

  lemma {:induction false} MarkAllAt(nodes: seq<Node>, next: nat, i: nat) returns (n: nat)
    requires i < |nodes|
    ensures |Repair.MarkAll(nodes, next)| == |nodes| && Repair.MarkAll(nodes, next)[i] == Repair.Mark(nodes[i], n)
  {
    if i == 0 {
      n := next;
      if |nodes| > 1 {
        var _ := MarkAllAt(nodes[1..], next + Repair.Size(nodes[0]), 0);
      }
    } else {
      n := MarkAllAt(nodes[1..], next + Repair.Size(nodes[0]), i - 1);
    }
  }

  lemma {:induction false} MarkKeepsHeads(nodes: seq<Node>, next: nat, path: FO.Path)
    ensures HeadAt(Repair.MarkAll(nodes, next), path) <==> HeadAt(nodes, path)
    decreases |path|
  {
    if path != [] && nodes != [] {
      var n := MarkAllAt(nodes, next, if path[0] < |nodes| then path[0] else 0);
      if path[0] < |nodes| && nodes[path[0]].Element? {
        MarkKeepsHeads(nodes[path[0]].children, n + 1, path[1..]);
      }
    }
  }

  lemma SameHeads(root: Node)
    requires root.Element?
    ensures Repair.Mark(root, 0).Element? && (NoHead(Repair.Mark(root, 0).children) <==> NoHead(root.children))
  {
    hide HeadAt;
    forall path { MarkKeepsHeads(root.children, 1, path); }
  }

  // --- The repaired document ---

  /** A repaired document that comes out is the marked tree with one more node, the last
      child of the first head in document order. The node is a script element of the
      record's media type, whose text a JSON reader turns back into the record of the
      marked tree. */
  lemma RepairedDocumentCarriesRecord(marked: Node, maximumBytes: nat) returns (path: FO.Path, script: Node, data: Str)
    requires marked.Element? && RepairedResult(marked, maximumBytes).Serialized?
    requires RepairedResult(marked, maximumBytes).result.Ok?
    ensures FirstHead(marked.children, path)
    ensures RepairedResult(marked, maximumBytes).result.value
            == Join(Pieces(marked.(children := AppendAt(marked.children, path, script)), false))
    ensures script.Element? && IsHtml(script) && script.name == Ascii("script") && script.children == [TextNode(data)]
    ensures GetAttribute(script.attrs, Ascii("id")) == Some(Ascii("offprint-repair-data"))
    ensures GetAttribute(script.attrs, Ascii("type")) == Some(Ascii("application/vnd.offprint.repair+json"))
    ensures RD.Inert(data) && RD.Supported(marked)
    ensures Json.ParseText(data).Some? && RD.FromDocument(Json.ParseText(data).value) == Some(RD.Record(marked))
  {
    hide Pieces, Join, AppendToHead, AppendAt, RM.RecordOut, RD.Record, RD.Supported, RD.FromDocument,
         Json.ParseText, Json.Print, RD.Inert, FirstHead, RepairScript, Encode, Utf8Length;
    data := RM.Owed(RM.RecordOut(marked), maximumBytes).result.value;
    script := RepairScript(data);
    path := AppendsToFirstHead(marked.children, script);
    RT.RecordText(marked);
    RT.RecordReadsBack(marked, maximumBytes);
    ScriptIsMarkedUp(data);
  }

  lemma ScriptIsMarkedUp(data: Str)
    ensures var script := RepairScript(data);
      && script.Element? && IsHtml(script) && script.name == Ascii("script") && script.children == [TextNode(data)]
      && GetAttribute(script.attrs, Ascii("id")) == Some(Ascii("offprint-repair-data"))
      && GetAttribute(script.attrs, Ascii("type")) == Some(Ascii("application/vnd.offprint.repair+json"))
  {
    var attrs := RepairScript(data).attrs;
    assert Ascii("id")[0] == 105 && Ascii("type")[0] == 116;
    assert attrs[1..][0] == attrs[1];
  }

  /** A tree that the record can describe makes the serializer throw exactly when its
      record fits and there is no head to put it in. */
  lemma ThrowsExactlyWithoutHead(root: Node, maximumBytes: nat)
    requires root.Element? && RD.Supported(Repair.Mark(root, 0))
    ensures RepairedResult(Repair.Mark(root, 0), maximumBytes).Threw? <==>
      && Utf8Length(Json.Print(RD.Document(RD.Record(Repair.Mark(root, 0))), Escape.ScriptJson)) <= maximumBytes
      && NoHead(root.children)
  {
    var marked := Repair.Mark(root, 0);
    hide Pieces, Join, AppendToHead, AppendAt, RM.RecordOut, RD.Record, RD.Supported, RD.FromDocument,
         Json.ParseText, Json.Print, RD.Inert, FirstHead, NoHead, RepairScript, Repair.Mark, Encode, Utf8Length;
    SameHeads(root);
    RT.RecordReadsBack(marked, maximumBytes);
    var owed := RM.Owed(RM.RecordOut(marked), maximumBytes);
    if owed.result.Ok? {
      var _ := AppendsToFirstHead(marked.children, RepairScript(owed.result.value));
    }
  }
}
