/**
 Structural repair, first part: walking the elements of a tree, template content included,
 and the markers that are assigned and removed along the walk.
 */
module Repair {
  import opened Text
  import opened Decimal
  import opened Dom
  import RD = RepairData

  // --- Walking elements ---

  /** Elements in the order they are visited: an element, its element children, then
      the elements of its template content. */
  function Walk(node: Node): seq<Node> {
    if !node.Element? then []
    else [node] + WalkAll(node.children) + (if IsTemplate(node) then WalkAll(node.content) else [])
  }

  function WalkAll(nodes: seq<Node>): seq<Node> {
    if nodes == [] then [] else Walk(nodes[0]) + WalkAll(nodes[1..])
  }

  /** `n` is the node itself or lies below it, in template content too. */
  ghost predicate Below(n: Node, node: Node) {
    n == node || (node.Element? && (BelowAny(n, node.children) || (IsTemplate(node) && BelowAny(n, node.content))))
  }

  ghost predicate BelowAny(n: Node, nodes: seq<Node>) {
    exists i :: 0 <= i < |nodes| && Below(n, nodes[i])
  }

  /** The walk comes to the elements of the tree, template content included, and to
      nothing else. */
  lemma {:induction false} WalkIsComplete(n: Node, node: Node)
    ensures n in Walk(node) <==> n.Element? && Below(n, node)
    decreases node, 1
  {
    hide BelowAny;
    if node.Element? {
      WalkAllIsComplete(n, node.children);
      if IsTemplate(node) {
        WalkAllIsComplete(n, node.content);
      }
    }
  }

  lemma {:induction false} WalkAllIsComplete(n: Node, nodes: seq<Node>)
    ensures n in WalkAll(nodes) <==> n.Element? && BelowAny(n, nodes)
    decreases nodes, 0
  {
    hide Walk, Below;
    if nodes != [] {
      WalkIsComplete(n, nodes[0]);
      WalkAllIsComplete(n, nodes[1..]);
      if BelowAny(n, nodes[1..]) {
        var i :| 0 <= i < |nodes[1..]| && Below(n, nodes[1..][i]);
        assert Below(n, nodes[i + 1]);
      }
      if BelowAny(n, nodes) && !Below(n, nodes[0]) {
        var i :| 0 <= i < |nodes| && Below(n, nodes[i]);
        assert nodes[1..][i - 1] == nodes[i];
      }
    }
  }

  function Remaining(pending: seq<Node>): seq<Node> {
    if pending == [] then [] else Walk(pending[|pending| - 1]) + Remaining(pending[..|pending| - 1])
  }

  lemma PushElement(pending: seq<Node>, node: Node)
    ensures Remaining(pending + [node]) == Walk(node) + Remaining(pending)
  {
    assert (pending + [node])[..|pending|] == pending;
  }

  function ElementsOf(nodes: seq<Node>): (r: seq<Node>)
    ensures forall i :: 0 <= i < |r| ==> r[i].Element?
  {
    if nodes == [] then []
    else (if nodes[0].Element? then [nodes[0]] else []) + ElementsOf(nodes[1..])
  }

  lemma {:induction false} WalkElementsOf(nodes: seq<Node>)
    ensures WalkAll(ElementsOf(nodes)) == WalkAll(nodes)
  {
    if nodes != [] {
      WalkElementsOf(nodes[1..]);
      if nodes[0].Element? {
        assert ([nodes[0]] + ElementsOf(nodes[1..]))[1..] == ElementsOf(nodes[1..]);
      } else {
        assert [] + ElementsOf(nodes[1..]) == ElementsOf(nodes[1..]);
      }
    }
  }

  lemma {:induction false} WalkAllConcat(a: seq<Node>, b: seq<Node>)
    ensures WalkAll(a + b) == WalkAll(a) + WalkAll(b)
  {
    if a == [] {
      assert a + b == b;
    } else {
      WalkAllConcat(a[1..], b);
      assert (a + b)[1..] == a[1..] + b;
      ConcatAssociates(Walk(a[0]), WalkAll(a[1..]), WalkAll(b));
    }
  }

  ghost predicate AllElements(nodes: seq<Node>) {
    forall i :: 0 <= i < |nodes| ==> nodes[i].Element?
  }

  /** Children are pushed last first. */
  method PushAll(pending: seq<Node>, kids: seq<Node>) returns (r: seq<Node>)
    ensures Remaining(r) == WalkAll(kids) + Remaining(pending)
    ensures AllElements(pending) && AllElements(kids) ==> AllElements(r)
  {
    hide Remaining, Walk;
    r := pending;
    assert kids[|kids|..] == [] && [] + Remaining(pending) == Remaining(pending);
    for index := |kids| downto 0
      invariant Remaining(r) == WalkAll(kids[index..]) + Remaining(pending)
      invariant AllElements(pending) && AllElements(kids) ==> AllElements(r)
    {
      PushElement(r, kids[index]);
      assert kids[index..][1..] == kids[index + 1..];
      ConcatAssociates(Walk(kids[index]), WalkAll(kids[index + 1..]), Remaining(pending));
      r := r + [kids[index]];
    }
    assert kids[0..] == kids;
  }

  /** The stack visits every element once, template content included, in walk order. */
  method WalkElements(root: Node) returns (order: seq<Node>)
    requires root.Element?
    ensures order == Walk(root)
  {
    hide Remaining, Walk, WalkAll, ElementsOf;
    order := [];
    var pending := [root];
    StartWalk(root);
    while pending != []
      invariant forall i :: 0 <= i < |pending| ==> pending[i].Element?
      invariant order + Remaining(pending) == Walk(root)
      decreases |Remaining(pending)|
    {
      var element := pending[|pending| - 1];
      var rest := pending[..|pending| - 1];
      assert pending == rest + [element];
      PushElement(rest, element);
      VisitNext(element, order, Remaining(rest));
      order := order + [element];
      var kids := ElementsOf(element.children) + ElementsOf(TemplateChildren(element));
      pending := PushAll(rest, kids);
    }
    EndWalk(order);
  }

  lemma StartWalk(root: Node)
    ensures [] + Remaining([root]) == Walk(root)
  {
    PushElement([], root);
    assert [] + [root] == [root];
  }

  lemma EndWalk(order: seq<Node>)
    ensures order + Remaining([]) == order
  {
  }

  lemma VisitNext(element: Node, order: seq<Node>, later: seq<Node>)
    requires element.Element?
    ensures var kids := WalkAll(ElementsOf(element.children) + ElementsOf(TemplateChildren(element)));
      && order + (Walk(element) + later) == (order + [element]) + (kids + later)
      && |Walk(element) + later| > |kids + later|
  {
    hide Walk, WalkAll, ElementsOf;
    var kids := WalkAll(ElementsOf(element.children) + ElementsOf(TemplateChildren(element)));
    WalkKids(element);
    ConcatAssociates([element], kids, later);
    ConcatAssociates(order, [element], kids + later);
  }

  lemma WalkKids(element: Node)
    requires element.Element?
    ensures Walk(element) == [element] + WalkAll(ElementsOf(element.children) + ElementsOf(TemplateChildren(element)))
  {
    hide WalkAll, ElementsOf;
    WalkAllConcat(ElementsOf(element.children), ElementsOf(TemplateChildren(element)));
    WalkElementsOf(element.children);
    WalkElementsOf(TemplateChildren(element));
    WalkParts(element);
  }

  lemma WalkParts(element: Node)
    requires element.Element?
    ensures Walk(element) == [element] + (WalkAll(element.children) + WalkAll(TemplateChildren(element)))
  {
    ConcatAssociates([element], WalkAll(element.children), WalkAll(TemplateChildren(element)));
  }

  // --- Markers ---

  /** `setAttribute`. */
  function SetAttribute(attrs: seq<Attr>, name: Str, value: Str): seq<Attr> {
    if attrs == [] then [Attr(name, value)]
    else if attrs[0].name == name then [Attr(name, value)] + attrs[1..]
    else [attrs[0]] + SetAttribute(attrs[1..], name, value)
  }

  /** `removeAttribute`. */
  function RemoveAttribute(attrs: seq<Attr>, name: Str): seq<Attr> {
    if attrs == [] then []
    else if attrs[0].name == name then attrs[1..]
    else [attrs[0]] + RemoveAttribute(attrs[1..], name)
  }

  lemma {:induction false} SetThenGet(attrs: seq<Attr>, name: Str, value: Str, other: Str)
    ensures GetAttribute(SetAttribute(attrs, name, value), other) ==
      if other == name then Some(value) else GetAttribute(attrs, other)
  {
    if attrs == [] {
      assert [Attr(name, value)][1..] == [];
    } else if attrs[0].name == name {
      assert ([Attr(name, value)] + attrs[1..])[1..] == attrs[1..];
    } else {
      SetThenGet(attrs[1..], name, value, other);
      assert ([attrs[0]] + SetAttribute(attrs[1..], name, value))[1..] == SetAttribute(attrs[1..], name, value);
    }
  }

  lemma {:induction false} SetThenRemove(attrs: seq<Attr>, name: Str, value: Str)
    ensures RemoveAttribute(SetAttribute(attrs, name, value), name) == RemoveAttribute(attrs, name)
  {
    if attrs == [] {
      assert [Attr(name, value)][1..] == [];
    } else if attrs[0].name == name {
      assert ([Attr(name, value)] + attrs[1..])[1..] == attrs[1..];
    } else {
      SetThenRemove(attrs[1..], name, value);
      assert ([attrs[0]] + SetAttribute(attrs[1..], name, value))[1..] == SetAttribute(attrs[1..], name, value);
    }
  }

  function Size(node: Node): nat {
    |Walk(node)|
  }

  /** The tree with markers `next`, `next + 1`, ... set in walk order. */
  function Mark(node: Node, next: nat): Node {
    if !node.Element? then node
    else
      node.(attrs := SetAttribute(node.attrs, RD.MARKER_ATTRIBUTE, Digits(next)),
            children := MarkAll(node.children, next + 1),
            content := if IsTemplate(node) then MarkAll(node.content, next + 1 + |WalkAll(node.children)|) else node.content)
  }

  function MarkAll(nodes: seq<Node>, next: nat): seq<Node> {
    if nodes == [] then [] else [Mark(nodes[0], next)] + MarkAll(nodes[1..], next + Size(nodes[0]))
  }

  function Unmark(node: Node): Node {
    if !node.Element? then node
    else
      node.(attrs := RemoveAttribute(node.attrs, RD.MARKER_ATTRIBUTE),
            children := UnmarkAll(node.children),
            content := if IsTemplate(node) then UnmarkAll(node.content) else node.content)
  }

  function UnmarkAll(nodes: seq<Node>): seq<Node> {
    if nodes == [] then [] else [Unmark(nodes[0])] + UnmarkAll(nodes[1..])
  }

  /** The tree without the attributes of the elements that are walked. */
  function Shape(node: Node): Node {
    if !node.Element? then node
    else
      node.(attrs := [], children := ShapeAll(node.children),
            content := if IsTemplate(node) then ShapeAll(node.content) else node.content)
  }

  function ShapeAll(nodes: seq<Node>): seq<Node> {
    if nodes == [] then [] else [Shape(nodes[0])] + ShapeAll(nodes[1..])
  }

  /** The elements of a walk carry consecutive markers and are otherwise unchanged. */
  ghost predicate Numbered(before: seq<Node>, after: seq<Node>, next: nat) {
    && |after| == |before|
    && forall i :: 0 <= i < |before| ==>
      && before[i].Element? && after[i].Element?
      && after[i].ns == before[i].ns && after[i].name == before[i].name
      && after[i].attrs == SetAttribute(before[i].attrs, RD.MARKER_ATTRIBUTE, Digits(next + i))
  }

  lemma NumberedConcat(a: seq<Node>, a': seq<Node>, b: seq<Node>, b': seq<Node>, next: nat)
    requires Numbered(a, a', next) && Numbered(b, b', next + |a|)
    ensures Numbered(a + b, a' + b', next)
  {
    forall i | 0 <= i < |a + b|
      ensures
        && (a + b)[i].Element? && (a' + b')[i].Element?
        && (a' + b')[i].ns == (a + b)[i].ns && (a' + b')[i].name == (a + b)[i].name
        && (a' + b')[i].attrs == SetAttribute((a + b)[i].attrs, RD.MARKER_ATTRIBUTE, Digits(next + i))
    {
      if i >= |a| {
        assert b'[i - |a|].attrs == SetAttribute(b[i - |a|].attrs, RD.MARKER_ATTRIBUTE, Digits(next + |a| + (i - |a|)));
      }
    }
  }

  /** Every element gets its walk index as marker and keeps its other attributes. */
  lemma {:induction false} MarkNumbers(node: Node, next: nat)
    ensures Numbered(Walk(node), Walk(Mark(node, next)), next)
    decreases node, 0
  {
    hide SetAttribute, Digits, Walk, WalkAll;
    if node.Element? {
      var m := Mark(node, next);
      MarkAllNumbers(node.children, next + 1);
      if IsTemplate(node) {
        MarkAllNumbers(node.content, next + 1 + |WalkAll(node.children)|);
      }
      NoWalk();
      WalkParts(node);
      WalkParts(m);
      var cs, cs' := WalkAll(node.children), WalkAll(m.children);
      var ts, ts' := WalkAll(TemplateChildren(node)), WalkAll(TemplateChildren(m));
      NumberedConcat(cs, cs', ts, ts', next + 1);
      NumberedConcat([node], [m], cs + ts, cs' + ts', next);
    } else {
      NoElement(node);
    }
  }

  lemma NoWalk()
    ensures WalkAll([]) == []
  {
  }

  lemma NoElement(node: Node)
    requires !node.Element?
    ensures Walk(node) == []
  {
  }

  lemma {:induction false} MarkAllNumbers(nodes: seq<Node>, next: nat)
    ensures Numbered(WalkAll(nodes), WalkAll(MarkAll(nodes, next)), next)
    decreases nodes, 1
  {
    hide SetAttribute, Digits;
    if nodes != [] {
      var marked := MarkAll(nodes, next);
      MarkNumbers(nodes[0], next);
      MarkAllNumbers(nodes[1..], next + Size(nodes[0]));
      assert marked[0] == Mark(nodes[0], next) && marked[1..] == MarkAll(nodes[1..], next + Size(nodes[0]));
      NumberedConcat(Walk(nodes[0]), Walk(marked[0]), WalkAll(nodes[1..]), WalkAll(marked[1..]), next);
    }
  }

  /** Apart from the attributes of the elements that are walked, marking changes nothing. */
  lemma {:induction false} MarkKeepsShape(node: Node, next: nat)
    ensures Shape(Mark(node, next)) == Shape(node)
    decreases node, 0
  {
    if node.Element? {
      MarkAllKeepsShape(node.children, next + 1);
      if IsTemplate(node) {
        MarkAllKeepsShape(node.content, next + 1 + |WalkAll(node.children)|);
      }
    }
  }

  lemma {:induction false} MarkAllKeepsShape(nodes: seq<Node>, next: nat)
    ensures ShapeAll(MarkAll(nodes, next)) == ShapeAll(nodes)
    decreases nodes, 1
  {
    if nodes != [] {
      MarkKeepsShape(nodes[0], next);
      MarkAllKeepsShape(nodes[1..], next + Size(nodes[0]));
      assert MarkAll(nodes, next)[1..] == MarkAll(nodes[1..], next + Size(nodes[0]));
    }
  }

  function MarkerOf(node: Node): Option<Str>
    requires node.Element?
  {
    GetAttribute(node.attrs, RD.MARKER_ATTRIBUTE)
  }

  /** After marking, the i-th element of the walk has marker i, and no two elements
      share a marker. */
  lemma MarkersAreUnique(root: Node, i: nat, j: nat)
    requires i < |Walk(Mark(root, 0))| && j < |Walk(Mark(root, 0))|
    ensures var order := Walk(Mark(root, 0));
      && order[i].Element? && order[j].Element?
      && MarkerOf(order[i]) == Some(Digits(i))
      && (MarkerOf(order[i]) == MarkerOf(order[j]) ==> i == j)
  {
    hide Walk, Mark;
    MarkNumbers(root, 0);
    var before, order := Walk(root), Walk(Mark(root, 0));
    SetThenGet(before[i].attrs, RD.MARKER_ATTRIBUTE, Digits(i), RD.MARKER_ATTRIBUTE);
    SetThenGet(before[j].attrs, RD.MARKER_ATTRIBUTE, Digits(j), RD.MARKER_ATTRIBUTE);
    DigitsDenote(i);
    DigitsDenote(j);
  }

  /** Assigning markers leaves no trace once markers are removed. */
  lemma {:induction false} UnmarkUndoesMark(node: Node, next: nat)
    ensures Unmark(Mark(node, next)) == Unmark(node)
    decreases node, 0
  {
    if node.Element? {
      SetThenRemove(node.attrs, RD.MARKER_ATTRIBUTE, Digits(next));
      UnmarkAllUndoes(node.children, next + 1);
      if IsTemplate(node) {
        UnmarkAllUndoes(node.content, next + 1 + |WalkAll(node.children)|);
      }
    }
  }

  lemma {:induction false} UnmarkAllUndoes(nodes: seq<Node>, next: nat)
    ensures UnmarkAll(MarkAll(nodes, next)) == UnmarkAll(nodes)
    decreases nodes, 1
  {
    if nodes != [] {
      UnmarkUndoesMark(nodes[0], next);
      UnmarkAllUndoes(nodes[1..], next + Size(nodes[0]));
      assert MarkAll(nodes, next)[1..] == MarkAll(nodes[1..], next + Size(nodes[0]));
    }
  }

  /** No element that is walked carries a marker. */
  ghost predicate Unmarked(order: seq<Node>) {
    forall i :: 0 <= i < |order| ==> order[i].Element? && MarkerOf(order[i]).None?
  }

  lemma {:induction false} RemoveAbsent(attrs: seq<Attr>, name: Str)
    requires GetAttribute(attrs, name).None?
    ensures RemoveAttribute(attrs, name) == attrs
  {
    if attrs != [] {
      RemoveAbsent(attrs[1..], name);
      assert attrs == [attrs[0]] + attrs[1..];
    }
  }

  lemma UnmarkedConcat(a: seq<Node>, b: seq<Node>)
    requires Unmarked(a + b)
    ensures Unmarked(a) && Unmarked(b)
  {
    assert forall i :: 0 <= i < |a| ==> (a + b)[i] == a[i];
    assert forall i :: 0 <= i < |b| ==> (a + b)[|a| + i] == b[i];
  }

  lemma {:induction false} UnmarkKeepsUnmarked(node: Node)
    requires Unmarked(Walk(node))
    ensures Unmark(node) == node
    decreases node, 0
  {
    hide Walk, WalkAll;
    if node.Element? {
      WalkParts(node);
      var cs, ts := WalkAll(node.children), WalkAll(TemplateChildren(node));
      assert Walk(node)[0] == node;
      UnmarkedConcat([node], cs + ts);
      UnmarkedConcat(cs, ts);
      RemoveAbsent(node.attrs, RD.MARKER_ATTRIBUTE);
      UnmarkAllKeepsUnmarked(node.children);
      if IsTemplate(node) {
        UnmarkAllKeepsUnmarked(node.content);
      }
    }
  }

  lemma {:induction false} UnmarkAllKeepsUnmarked(nodes: seq<Node>)
    requires Unmarked(WalkAll(nodes))
    ensures UnmarkAll(nodes) == nodes
    decreases nodes, 1
  {
    hide Walk;
    if nodes != [] {
      UnmarkedConcat(Walk(nodes[0]), WalkAll(nodes[1..]));
      UnmarkKeepsUnmarked(nodes[0]);
      UnmarkAllKeepsUnmarked(nodes[1..]);
      assert nodes == [nodes[0]] + nodes[1..];
    }
  }

  /** A tree without markers comes back as it was, attribute order included. */
  lemma MarkersComeOff(node: Node, next: nat)
    requires Unmarked(Walk(node))
    ensures Unmark(Mark(node, next)) == node
  {
    hide Walk, Mark, Unmark;
    UnmarkUndoesMark(node, next);
    UnmarkKeepsUnmarked(node);
  }

  /** The attributes with another name, in order. */
  function Others(attrs: seq<Attr>, name: Str): seq<Attr> {
    if attrs == [] then []
    else (if attrs[0].name == name then [] else [attrs[0]]) + Others(attrs[1..], name)
  }

  /** As the DOM has it, no element has two attributes of one name. */
  ghost predicate DistinctNames(attrs: seq<Attr>) {
    forall i, j :: 0 <= i < j < |attrs| ==> attrs[i].name != attrs[j].name
  }

  lemma {:induction false} OthersAll(attrs: seq<Attr>, name: Str)
    requires forall i :: 0 <= i < |attrs| ==> attrs[i].name != name
    ensures Others(attrs, name) == attrs
  {
    if attrs != [] {
      OthersAll(attrs[1..], name);
      assert attrs == [attrs[0]] + attrs[1..];
    }
  }

  lemma {:induction false} RemoveLeavesOthers(attrs: seq<Attr>, name: Str)
    requires DistinctNames(attrs)
    ensures RemoveAttribute(attrs, name) == Others(attrs, name)
  {
    if attrs == [] {
    } else if attrs[0].name == name {
      OthersAll(attrs[1..], name);
      assert [] + attrs[1..] == attrs[1..];
    } else {
      RemoveLeavesOthers(attrs[1..], name);
    }
  }

  lemma {:induction false} OthersLookUp(attrs: seq<Attr>, name: Str, other: Str)
    ensures GetAttribute(Others(attrs, name), other) == if other == name then None else GetAttribute(attrs, other)
  {
    if attrs != [] {
      OthersLookUp(attrs[1..], name, other);
      if attrs[0].name == name {
        assert [] + Others(attrs[1..], name) == Others(attrs[1..], name);
      } else {
        assert ([attrs[0]] + Others(attrs[1..], name))[1..] == Others(attrs[1..], name);
      }
    }
  }

  ghost predicate AllDistinct(order: seq<Node>) {
    forall i :: 0 <= i < |order| ==> order[i].Element? && DistinctNames(order[i].attrs)
  }

  /** The elements of a walk have lost their markers and kept every other attribute. */
  ghost predicate Cleared(before: seq<Node>, after: seq<Node>) {
    && |after| == |before|
    && forall i :: 0 <= i < |before| ==>
      && before[i].Element? && after[i].Element?
      && after[i].attrs == Others(before[i].attrs, RD.MARKER_ATTRIBUTE)
  }

  lemma ClearedConcat(a: seq<Node>, a': seq<Node>, b: seq<Node>, b': seq<Node>)
    requires Cleared(a, a') && Cleared(b, b')
    ensures Cleared(a + b, a' + b')
  {
  }

  lemma DistinctConcat(a: seq<Node>, b: seq<Node>)
    requires AllDistinct(a + b)
    ensures AllDistinct(a) && AllDistinct(b)
  {
    assert forall i :: 0 <= i < |a| ==> (a + b)[i] == a[i];
    assert forall i :: 0 <= i < |b| ==> (a + b)[|a| + i] == b[i];
  }

  /** Removal takes the marker off every element that is walked, template content
      included, and leaves every other attribute, every text and the structure. */
  lemma {:induction false} UnmarkClears(node: Node)
    requires AllDistinct(Walk(node))
    ensures Cleared(Walk(node), Walk(Unmark(node))) && Shape(Unmark(node)) == Shape(node)
    decreases node, 0
  {
    hide Walk, WalkAll, Others, DistinctNames;
    if node.Element? {
      var u := Unmark(node);
      WalkParts(node);
      WalkParts(u);
      var cs, cs' := WalkAll(node.children), WalkAll(u.children);
      var ts, ts' := WalkAll(TemplateChildren(node)), WalkAll(TemplateChildren(u));
      assert Walk(node)[0] == node;
      DistinctConcat([node], cs + ts);
      DistinctConcat(cs, ts);
      RemoveLeavesOthers(node.attrs, RD.MARKER_ATTRIBUTE);
      UnmarkAllClears(node.children);
      if IsTemplate(node) {
        UnmarkAllClears(node.content);
      }
      NoWalk();
      ClearedConcat(cs, cs', ts, ts');
      ClearedConcat([node], [u], cs + ts, cs' + ts');
    } else {
      NoElement(node);
    }
  }

  lemma {:induction false} UnmarkAllClears(nodes: seq<Node>)
    requires AllDistinct(WalkAll(nodes))
    ensures Cleared(WalkAll(nodes), WalkAll(UnmarkAll(nodes))) && ShapeAll(UnmarkAll(nodes)) == ShapeAll(nodes)
    decreases nodes, 1
  {
    hide Walk, Others, DistinctNames;
    if nodes != [] {
      DistinctConcat(Walk(nodes[0]), WalkAll(nodes[1..]));
      UnmarkClears(nodes[0]);
      UnmarkAllClears(nodes[1..]);
      var after := UnmarkAll(nodes);
      assert after[0] == Unmark(nodes[0]) && after[1..] == UnmarkAll(nodes[1..]);
      ClearedConcat(Walk(nodes[0]), Walk(after[0]), WalkAll(nodes[1..]), WalkAll(after[1..]));
    }
  }

  /** No marker is left, and every other attribute reads as before. */
  lemma NoMarkerLeft(root: Node, i: nat, other: Str)
    requires AllDistinct(Walk(root)) && i < |Walk(Unmark(root))|
    ensures var order, before := Walk(Unmark(root)), Walk(root);
      && |order| == |before| && order[i].Element? && before[i].Element?
      && MarkerOf(order[i]).None?
      && (other != RD.MARKER_ATTRIBUTE ==> GetAttribute(order[i].attrs, other) == GetAttribute(before[i].attrs, other))
  {
    hide Walk, Unmark, Others;
    UnmarkClears(root);
    OthersLookUp(Walk(root)[i].attrs, RD.MARKER_ATTRIBUTE, RD.MARKER_ATTRIBUTE);
    OthersLookUp(Walk(root)[i].attrs, RD.MARKER_ATTRIBUTE, other);
  }
}
