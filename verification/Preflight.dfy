/**
 Measuring a document before it is copied: a worklist of cursors over children,
 siblings, template content and shadow roots that stops as soon as a limit is passed.
 */
module Preflight {
  import opened Text
  import opened Dom

  // --- Recursive totals ---

  function AttrsBytes(attrs: seq<Attr>): nat {
    if attrs == [] then 0
    else AttrsBytes(attrs[..|attrs| - 1]) + AttrBytes(attrs[|attrs| - 1])
  }

  function AttrBytes(attr: Attr): nat {
    1 + Utf8Length(attr.name) + 3 + Utf8Length(attr.value)
  }

  /** The bytes a node itself takes in serialized form, before escaping. */
  function NodeBytes(node: Node): nat {
    match node
    case Element(_, name, attrs, _, _, _) => 2 + Utf8Length(name) + AttrsBytes(attrs) + 3 + Utf8Length(name)
    case Comment(value) => 7 + Utf8Length(value)
    case Doctype(name) => 11 + Utf8Length(name)
    case TextNode(value) => Utf8Length(value)
    case OtherNode(value) => Utf8Length(value)
  }

  function TreeNodes(node: Node): nat {
    if !node.Element? then 1
    else
      1 + ForestNodes(node.children)
      + (if IsTemplate(node) then ForestNodes(node.content) else 0)
      + (if node.shadow.ShadowRoot? then ForestNodes(node.shadow.nodes) else 0)
  }

  function ForestNodes(nodes: seq<Node>): nat {
    if nodes == [] then 0 else TreeNodes(nodes[0]) + ForestNodes(nodes[1..])
  }

  function TreeBytes(node: Node): nat {
    if !node.Element? then NodeBytes(node)
    else
      NodeBytes(node) + ForestBytes(node.children)
      + (if IsTemplate(node) then ForestBytes(node.content) else 0)
      + (if node.shadow.ShadowRoot? then ForestBytes(node.shadow.nodes) else 0)
  }

  function ForestBytes(nodes: seq<Node>): nat {
    if nodes == [] then 0 else TreeBytes(nodes[0]) + ForestBytes(nodes[1..])
  }

  // --- The order of the worklist ---

  /** The nodes under a node in the order the worklist comes to them, each once. */
  function Visit(node: Node): seq<Node> {
    if !node.Element? then [node]
    else
      [node]
      + (if node.shadow.ShadowRoot? then VisitAll(node.shadow.nodes) else [])
      + (if IsTemplate(node) then VisitAll(node.content) else [])
      + VisitAll(node.children)
  }

  function VisitAll(nodes: seq<Node>): seq<Node> {
    if nodes == [] then [] else Visit(nodes[0]) + VisitAll(nodes[1..])
  }

  /** `n` is the node itself or lies below it, in template content and shadow roots too. */
  ghost predicate Within(n: Node, node: Node) {
    n == node
    || (node.Element?
        && (|| WithinAny(n, node.children)
            || (IsTemplate(node) && WithinAny(n, node.content))
            || (node.shadow.ShadowRoot? && WithinAny(n, node.shadow.nodes))))
  }

  ghost predicate WithinAny(n: Node, nodes: seq<Node>) {
    exists i :: 0 <= i < |nodes| && Within(n, nodes[i])
  }

  /** The worklist comes to every node of a document, in templates and shadow roots too. */
  lemma {:induction false} VisitIsComplete(n: Node, node: Node)
    ensures n in Visit(node) <==> Within(n, node)
    decreases node, 1
  {
    hide WithinAny;
    if node.Element? {
      VisitAllIsComplete(n, node.children);
      if IsTemplate(node) {
        VisitAllIsComplete(n, node.content);
      }
      if node.shadow.ShadowRoot? {
        VisitAllIsComplete(n, node.shadow.nodes);
      }
    }
  }

  lemma {:induction false} VisitAllIsComplete(n: Node, nodes: seq<Node>)
    ensures n in VisitAll(nodes) <==> WithinAny(n, nodes)
    decreases nodes, 0
  {
    hide Visit, Within;
    if nodes != [] {
      VisitIsComplete(n, nodes[0]);
      VisitAllIsComplete(n, nodes[1..]);
      if WithinAny(n, nodes[1..]) {
        var i :| 0 <= i < |nodes[1..]| && Within(n, nodes[1..][i]);
        assert Within(n, nodes[i + 1]);
      }
      if WithinAny(n, nodes) && !Within(n, nodes[0]) {
        var i :| 0 <= i < |nodes| && Within(n, nodes[i]);
        assert nodes[1..][i - 1] == nodes[i];
      }
    }
  }

  function SumBytes(nodes: seq<Node>): nat {
    if nodes == [] then 0 else NodeBytes(nodes[0]) + SumBytes(nodes[1..])
  }

  lemma {:induction false} SumConcat(a: seq<Node>, b: seq<Node>)
    ensures SumBytes(a + b) == SumBytes(a) + SumBytes(b)
  {
    hide NodeBytes;
    if a == [] {
      assert a + b == b;
    } else {
      SumConcat(a[1..], b);
      assert (a + b)[1..] == a[1..] + b;
    }
  }

  lemma {:induction false} VisitTotals(node: Node)
    ensures |Visit(node)| == TreeNodes(node) && SumBytes(Visit(node)) == TreeBytes(node)
    decreases node, 0
  {
    hide NodeBytes;
    assert [node][1..] == [];
    assert SumBytes([node]) == NodeBytes(node) + SumBytes([]);
    if node.Element? {
      var shadow := if node.shadow.ShadowRoot? then VisitAll(node.shadow.nodes) else [];
      var content := if IsTemplate(node) then VisitAll(node.content) else [];
      if node.shadow.ShadowRoot? {
        VisitAllTotals(node.shadow.nodes);
      }
      if IsTemplate(node) {
        VisitAllTotals(node.content);
      }
      VisitAllTotals(node.children);
      SumConcat([node], shadow);
      SumConcat([node] + shadow, content);
      SumConcat([node] + shadow + content, VisitAll(node.children));
    }
  }

  lemma {:induction false} VisitAllTotals(nodes: seq<Node>)
    ensures |VisitAll(nodes)| == ForestNodes(nodes) && SumBytes(VisitAll(nodes)) == ForestBytes(nodes)
    decreases nodes, 1
  {
    hide NodeBytes;
    if nodes != [] {
      VisitTotals(nodes[0]);
      VisitAllTotals(nodes[1..]);
      SumConcat(Visit(nodes[0]), VisitAll(nodes[1..]));
    }
  }

  // --- Measuring one node ---

  /** `add`: fixed bytes and the width of a string, unless they pass the limit. */
  method Add(bytes: nat, value: Str, fixedBytes: nat, maximumBytes: nat) returns (ok: bool, total: nat)
    requires bytes <= maximumBytes <= MAX_SAFE_INTEGER
    ensures ok <==> bytes + fixedBytes + Utf8Length(value) <= maximumBytes
    ensures ok ==> total == bytes + fixedBytes + Utf8Length(value)
  {
    if bytes > maximumBytes - fixedBytes {
      return false, bytes;
    }
    var width := Utf8LengthWithinLimit(value, maximumBytes - (bytes + fixedBytes));
    if width.OverLimit? {
      return false, bytes;
    }
    return true, bytes + fixedBytes + width.bytes;
  }

  lemma {:induction false} AttrsPrefix(attrs: seq<Attr>, i: nat)
    requires i <= |attrs|
    ensures AttrsBytes(attrs[..i]) <= AttrsBytes(attrs)
    decreases |attrs| - i
  {
    if i < |attrs| {
      AttrsPrefix(attrs, i + 1);
      assert attrs[..i + 1][..i] == attrs[..i];
    } else {
      assert attrs[..i] == attrs;
    }
  }

  method MeasureElement(name: Str, attrs: seq<Attr>, maximumBytes: nat) returns (r: Option<nat>)
    requires maximumBytes <= MAX_SAFE_INTEGER
    ensures var total := 2 + Utf8Length(name) + AttrsBytes(attrs) + 3 + Utf8Length(name);
      r == if total <= maximumBytes then Some(total) else None
  {
    hide Utf8Length;
    var ok, bytes := Add(0, name, 2, maximumBytes);
    if !ok {
      return None;
    }
    for index := 0 to |attrs|
      invariant bytes == 2 + Utf8Length(name) + AttrsBytes(attrs[..index]) <= maximumBytes
    {
      assert attrs[..index + 1][..index] == attrs[..index];
      AttrsPrefix(attrs, index + 1);
      ok, bytes := Add(bytes, attrs[index].name, 1, maximumBytes);
      if !ok {
        return None;
      }
      ok, bytes := Add(bytes, attrs[index].value, 3, maximumBytes);
      if !ok {
        return None;
      }
    }
    assert attrs[..|attrs|] == attrs;
    ok, bytes := Add(bytes, name, 3, maximumBytes);
    return if ok then Some(bytes) else None;
  }

  /** The node's own bytes, or nothing when they pass the limit. */
  method MeasureDomNodePayload(node: Node, maximumBytes: nat) returns (r: Option<nat>)
    requires maximumBytes <= MAX_SAFE_INTEGER
    ensures r == if NodeBytes(node) <= maximumBytes then Some(NodeBytes(node)) else None
  {
    hide Utf8Length, AttrsBytes;
    var ok, bytes;
    match node {
      case Element(_, name, attrs, _, _, _) =>
        r := MeasureElement(name, attrs, maximumBytes);
        return;
      case Comment(value) => ok, bytes := Add(0, value, 7, maximumBytes);
      case Doctype(name) => ok, bytes := Add(0, name, 11, maximumBytes);
      case TextNode(value) => ok, bytes := Add(0, value, 0, maximumBytes);
      case OtherNode(value) => ok, bytes := Add(0, value, 0, maximumBytes);
    }
    return if ok then Some(bytes) else None;
  }

  // --- The worklist ---

  /** A node with the siblings after it, or a document or fragment with its children. */
  datatype Cursor = Siblings(nodes: seq<Node>) | Fragment(nodes: seq<Node>)

  datatype Measured =
    | Fits(nodes: nat, payloadBytes: nat)
    | TooManyNodes(attempted: nat)
    | TooManyBytes(attempted: nat)

  function Pending(pending: seq<Cursor>): seq<Node> {
    if pending == [] then []
    else VisitAll(pending[|pending| - 1].nodes) + Pending(pending[..|pending| - 1])
  }

  function Fragments(pending: seq<Cursor>): nat {
    if pending == [] then 0
    else (if pending[|pending| - 1].Fragment? then 1 else 0) + Fragments(pending[..|pending| - 1])
  }

  ghost predicate Cursors(pending: seq<Cursor>) {
    forall i :: 0 <= i < |pending| ==> pending[i].Siblings? ==> pending[i].nodes != []
  }

  lemma Push(pending: seq<Cursor>, c: Cursor)
    ensures Pending(pending + [c]) == VisitAll(c.nodes) + Pending(pending)
    ensures Fragments(pending + [c]) == (if c.Fragment? then 1 else 0) + Fragments(pending)
  {
    assert (pending + [c])[..|pending|] == pending;
  }

  /** Scanning a list of nodes against both limits, from `nodes` and `bytes` on. */
  function Scan(list: seq<Node>, nodes: nat, bytes: nat, maximumNodes: nat, maximumBytes: nat): Measured
    decreases |list|
  {
    if list == [] then Fits(nodes, bytes)
    else if nodes + 1 > maximumNodes then TooManyNodes(nodes + 1)
    else if bytes + NodeBytes(list[0]) > maximumBytes then TooManyBytes(maximumBytes + 1)
    else Scan(list[1..], nodes + 1, bytes + NodeBytes(list[0]), maximumNodes, maximumBytes)
  }

  method PushChildren(pending: seq<Cursor>, nodes: seq<Node>) returns (r: seq<Cursor>)
    requires Cursors(pending)
    ensures Cursors(r) && Pending(r) == VisitAll(nodes) + Pending(pending) && Fragments(r) == Fragments(pending)
  {
    hide Pending, Fragments;
    if nodes == [] {
      assert VisitAll(nodes) + Pending(pending) == Pending(pending);
      return pending;
    }
    Push(pending, Siblings(nodes));
    r := pending + [Siblings(nodes)];
  }

  /** What a node leads to: its next sibling lies deepest, then its children, its
      template content and its shadow root. */
  method PushNode(pending: seq<Cursor>, nodes: seq<Node>) returns (r: seq<Cursor>)
    requires Cursors(pending) && nodes != []
    ensures Cursors(r) && [nodes[0]] + Pending(r) == VisitAll(nodes) + Pending(pending)
  {
    hide Pending, Fragments, VisitAll;
    var node := nodes[0];
    r := PushChildren(pending, nodes[1..]);
    UnfoldVisit(nodes, Pending(pending));
    if node.Element? {
      r := PushChildren(r, node.children);
      if IsTemplate(node) {
        Push(r, Fragment(node.content));
        r := r + [Fragment(node.content)];
      }
      if node.shadow.ShadowRoot? {
        Push(r, Fragment(node.shadow.nodes));
        r := r + [Fragment(node.shadow.nodes)];
      }
    }
  }

  lemma UnfoldVisit(nodes: seq<Node>, later: seq<Node>)
    requires nodes != []
    ensures var node := nodes[0];
      VisitAll(nodes) + later == [node] +
        if !node.Element? then VisitAll(nodes[1..]) + later
        else
          (var c := VisitAll(node.children) + (VisitAll(nodes[1..]) + later);
           var t := if IsTemplate(node) then VisitAll(node.content) + c else c;
           if node.shadow.ShadowRoot? then VisitAll(node.shadow.nodes) + t else t)
  {
    hide VisitAll, Visit;
    var node := nodes[0];
    var rest := VisitAll(nodes[1..]);
    VisitHead(nodes);
    ConcatAssociates(Visit(node), rest, later);
    if node.Element? {
      var s := if node.shadow.ShadowRoot? then VisitAll(node.shadow.nodes) else [];
      var t := if IsTemplate(node) then VisitAll(node.content) else [];
      var c := VisitAll(node.children);
      VisitElement(node, s, t, c);
      Associate4([node], s, t, c, rest + later);
      EmptyFront(t, c + (rest + later));
      EmptyFront(s, t + (c + (rest + later)));
    }
  }

  lemma VisitHead(nodes: seq<Node>)
    requires nodes != []
    ensures VisitAll(nodes) == Visit(nodes[0]) + VisitAll(nodes[1..])
    ensures !nodes[0].Element? ==> Visit(nodes[0]) == [nodes[0]]
  {
  }

  lemma VisitElement(node: Node, s: seq<Node>, t: seq<Node>, c: seq<Node>)
    requires node.Element? && c == VisitAll(node.children)
    requires s == if node.shadow.ShadowRoot? then VisitAll(node.shadow.nodes) else []
    requires t == if IsTemplate(node) then VisitAll(node.content) else []
    ensures Visit(node) == [node] + s + t + c
  {
  }

  lemma Associate4<T>(a: seq<T>, b: seq<T>, c: seq<T>, d: seq<T>, e: seq<T>)
    ensures (a + b + c + d) + e == a + (b + (c + (d + e)))
  {
  }

  lemma EmptyFront<T>(a: seq<T>, b: seq<T>)
    ensures a == [] ==> a + b == b
  {
  }

  /** The worklist scans every node under the document once, in visiting order. */
  method PreflightDocumentWithinLimits(document: seq<Node>, maximumNodes: nat, maximumPayloadBytes: nat)
    returns (r: Measured)
    requires maximumPayloadBytes <= MAX_SAFE_INTEGER
    ensures r == Scan(VisitAll(document), 0, 0, maximumNodes, maximumPayloadBytes)
  {
    hide VisitAll, NodeBytes, Pending, Fragments;
    var nodes: nat, payloadBytes: nat := 0, 0;
    var pending := [Fragment(document)];
    OneCursor(Fragment(document));
    while pending != []
      invariant Cursors(pending) && payloadBytes <= maximumPayloadBytes
      invariant Scan(VisitAll(document), 0, 0, maximumNodes, maximumPayloadBytes) ==
        Scan(Pending(pending), nodes, payloadBytes, maximumNodes, maximumPayloadBytes)
      decreases |Pending(pending)|, Fragments(pending)
    {
      var cursor := pending[|pending| - 1];
      var rest := pending[..|pending| - 1];
      assert pending == rest + [cursor];
      Push(rest, cursor);
      if cursor.Fragment? {
        pending := PushChildren(rest, cursor.nodes);
      } else {
        var node := cursor.nodes[0];
        pending := PushNode(rest, cursor.nodes);
        assert ([node] + Pending(pending))[1..] == Pending(pending);
        nodes := nodes + 1;
        if nodes > maximumNodes {
          return TooManyNodes(nodes);
        }
        var measured := MeasureDomNodePayload(node, maximumPayloadBytes - payloadBytes);
        if measured.None? {
          return TooManyBytes(maximumPayloadBytes + 1);
        }
        payloadBytes := payloadBytes + measured.value;
      }
    }
    NoCursors();
    return Fits(nodes, payloadBytes);
  }

  lemma OneCursor(c: Cursor)
    ensures Pending([c]) == VisitAll(c.nodes)
  {
    Push([], c);
    assert [] + [c] == [c];
  }

  lemma NoCursors()
    ensures Pending([]) == []
  {
  }

  lemma {:induction false} ScanDecides(list: seq<Node>, nodes: nat, bytes: nat, maximumNodes: nat, maximumBytes: nat)
    requires nodes <= maximumNodes && bytes <= maximumBytes
    ensures var r := Scan(list, nodes, bytes, maximumNodes, maximumBytes);
      && (r.Fits? <==> nodes + |list| <= maximumNodes && bytes + SumBytes(list) <= maximumBytes)
      && (r.Fits? ==> r == Fits(nodes + |list|, bytes + SumBytes(list)))
      && (r.TooManyNodes? ==> nodes + |list| > maximumNodes && r.attempted == maximumNodes + 1)
      && (r.TooManyBytes? ==> bytes + SumBytes(list) > maximumBytes && r.attempted == maximumBytes + 1)
    decreases |list|
  {
    hide NodeBytes;
    if list != [] && nodes + 1 <= maximumNodes && bytes + NodeBytes(list[0]) <= maximumBytes {
      ScanDecides(list[1..], nodes + 1, bytes + NodeBytes(list[0]), maximumNodes, maximumBytes);
    }
  }

  /** Preflight succeeds exactly when both recursive totals fit, and then returns them; a
      refusal names a limit that the document does exceed. */
  lemma PreflightDecides(document: seq<Node>, maximumNodes: nat, maximumBytes: nat)
    ensures var r := Scan(VisitAll(document), 0, 0, maximumNodes, maximumBytes);
      && (r.Fits? <==> ForestNodes(document) <= maximumNodes && ForestBytes(document) <= maximumBytes)
      && (r.Fits? ==> r == Fits(ForestNodes(document), ForestBytes(document)))
      && (r.TooManyNodes? ==> ForestNodes(document) > maximumNodes && r.attempted == maximumNodes + 1)
      && (r.TooManyBytes? ==> ForestBytes(document) > maximumBytes && r.attempted == maximumBytes + 1)
  {
    hide VisitAll, SumBytes, ForestNodes, ForestBytes, Scan;
    VisitAllTotals(document);
    ScanDecides(VisitAll(document), 0, 0, maximumNodes, maximumBytes);
  }
}
