/** Comparing a tree with its reparsed serialization, and the serialization that attaches
    a repair record only when they differ. */
module RepairDocument {
  import opened Text
  import opened Writer
  import opened Dom
  import opened Html
  import opened Repair
  import RD = RepairData
  import RM = RepairMachine

  // --- Equality ---

  /** What the comparison sees of a tree of elements, text and comments. */
  datatype Signature =
    | SigElement(marker: Option<Str>, ns: Str, name: Str, shadowMode: Option<Str>,
                 children: seq<Signature>, template: seq<Signature>)
    | SigText(value: Str)
    | SigComment(value: Str)

  function ShadowModeFor(element: Node): Option<Str>
    requires element.Element?
  {
    if IsTemplate(element) then GetAttribute(element.attrs, RD.SHADOW_MODE) else None
  }

  function Sign(node: Node): Signature
    requires RD.Supported(node)
  {
    match node
    case Element(_, name, _, children, content, _) =>
      SigElement(MarkerOf(node), RD.Namespace(node), name, ShadowModeFor(node), SignAll(children),
                 if IsTemplate(node) then SignAll(content) else [])
    case TextNode(value) => SigText(value)
    case Comment(value) => SigComment(value)
  }

  function SignAll(nodes: seq<Node>): (r: seq<Signature>)
    requires RD.AllSupported(nodes)
    ensures |r| == |nodes|
  {
    if nodes == [] then [] else [Sign(nodes[0])] + SignAll(nodes[1..])
  }

  /** Recursively equal: both trees can be repaired and look the same. */
  ghost predicate Same(l: Node, r: Node) {
    RD.Supported(l) && RD.Supported(r) && Sign(l) == Sign(r)
  }

  ghost predicate AllSame(ls: seq<Node>, rs: seq<Node>) {
    |ls| == |rs| && forall i :: 0 <= i < |ls| ==> Same(ls[i], rs[i])
  }

  lemma {:induction false} SameLists(ls: seq<Node>, rs: seq<Node>)
    ensures AllSame(ls, rs) <==>
      RD.AllSupported(ls) && RD.AllSupported(rs) && SignAll(ls) == SignAll(rs)
  {
    hide Same;
    if ls == [] || rs == [] {
    } else {
      SameLists(ls[1..], rs[1..]);
      SameHead(ls[0], rs[0]);
      assert AllSame(ls, rs) <==> Same(ls[0], rs[0]) && AllSame(ls[1..], rs[1..]) by {
        if Same(ls[0], rs[0]) && AllSame(ls[1..], rs[1..]) {
          assert forall i :: 0 < i < |ls| ==> ls[i] == ls[1..][i - 1] && rs[i] == rs[1..][i - 1];
        }
      }
      if RD.AllSupported(ls) && RD.AllSupported(rs) {
        assert SignAll(ls)[0] == Sign(ls[0]) && SignAll(ls)[1..] == SignAll(ls[1..]);
        assert SignAll(rs)[0] == Sign(rs[0]) && SignAll(rs)[1..] == SignAll(rs[1..]);
        assert SignAll(ls) == [Sign(ls[0])] + SignAll(ls[1..]);
        assert SignAll(rs) == [Sign(rs[0])] + SignAll(rs[1..]);
      }
    }
  }

  lemma SameHead(l: Node, r: Node)
    ensures Same(l, r) <==> RD.Supported(l) && RD.Supported(r) && Sign(l) == Sign(r)
  {
  }

  ghost predicate SameElement(l: Node, r: Node)
    requires l.Element? && r.Element?
  {
    MarkerOf(l) == MarkerOf(r) && RD.Namespace(l) == RD.Namespace(r) && l.name == r.name
    && ShadowModeFor(l) == ShadowModeFor(r)
  }

  /** Two elements are equal when they agree by themselves and their children and
      template children are equal in pairs. */
  lemma ElementsSame(l: Node, r: Node)
    requires l.Element? && r.Element?
    ensures Same(l, r) <==>
      SameElement(l, r) && AllSame(l.children, r.children) && AllSame(TemplateChildren(l), TemplateChildren(r))
  {
    hide AllSame, MarkerOf, RD.Namespace, ShadowModeFor, SignAll;
    SameLists(l.children, r.children);
    SameLists(TemplateChildren(l), TemplateChildren(r));
    NothingSigned();
  }

  lemma NothingSigned()
    ensures RD.AllSupported([]) && SignAll([]) == []
  {
  }

  ghost predicate PairsSame(pending: seq<(Node, Node)>) {
    forall i :: 0 <= i < |pending| ==> Same(pending[i].0, pending[i].1)
  }

  ghost function PairsWeight(pending: seq<(Node, Node)>): nat {
    if pending == [] then 0 else 1 + RM.Weight(pending[|pending| - 1].0) + PairsWeight(pending[..|pending| - 1])
  }

  lemma PushPair(pending: seq<(Node, Node)>, l: Node, r: Node)
    ensures PairsSame(pending + [(l, r)]) <==> PairsSame(pending) && Same(l, r)
    ensures PairsWeight(pending + [(l, r)]) == 1 + RM.Weight(l) + PairsWeight(pending)
  {
    hide Same;
    var pushed := pending + [(l, r)];
    assert pushed[..|pending|] == pending;
    assert pushed[|pending|] == (l, r);
    assert forall i :: 0 <= i < |pending| ==> pushed[i] == pending[i];
  }

  method PushPairs(pending: seq<(Node, Node)>, ls: seq<Node>, rs: seq<Node>) returns (r: seq<(Node, Node)>)
    requires |ls| == |rs|
    ensures PairsSame(r) <==> PairsSame(pending) && AllSame(ls, rs)
    ensures PairsWeight(r) == PairsWeight(pending) + RM.ForestWeight(ls)
  {
    hide PairsSame, PairsWeight, Same, RM.Weight;
    r := pending;
    ghost var weight := RM.ForestWeight(ls);
    assert ls[0..] == ls;
    for index := 0 to |ls|
      invariant PairsSame(r) <==> PairsSame(pending) && forall i :: 0 <= i < index ==> Same(ls[i], rs[i])
      invariant PairsWeight(r) + RM.ForestWeight(ls[index..]) == PairsWeight(pending) + RM.ForestWeight(ls)
    {
      PushPair(r, ls[index], rs[index]);
      assert ls[index..][1..] == ls[index + 1..];
      r := r + [(ls[index], rs[index])];
    }
  }

  /** The comparison answers true exactly for recursively equal trees. */
  method RepairNodesEqual(left: Node, right: Node) returns (equal: bool)
    ensures equal <==> Same(left, right)
  {
    hide PairsSame, PairsWeight, Sign, RM.Weight, RD.Supported, AllSame;
    var pending := [(left, right)];
    OnePair(left, right);
    while pending != []
      invariant PairsSame(pending) <==> Same(left, right)
      decreases PairsWeight(pending)
    {
      var (l, r) := pending[|pending| - 1];
      var rest := pending[..|pending| - 1];
      assert pending == rest + [(l, r)];
      PushPair(rest, l, r);
      if l.Element? && r.Element? {
        ElementsSame(l, r);
        ElementWeight(l);
        if !(MarkerOf(l) == MarkerOf(r) && RD.Namespace(l) == RD.Namespace(r) && l.name == r.name
             && ShadowModeFor(l) == ShadowModeFor(r)) {
          return false;
        }
        DifferentLengths(l.children, r.children);
        if |l.children| != |r.children| {
          return false;
        }
        pending := PushPairs(rest, l.children, r.children);
        var lt, rt := TemplateChildren(l), TemplateChildren(r);
        DifferentLengths(lt, rt);
        if |lt| != |rt| {
          return false;
        }
        pending := PushPairs(pending, lt, rt);
      } else {
        LeavesSame(l, r);
        if !((l.TextNode? && r.TextNode?) || (l.Comment? && r.Comment?)) || l.value != r.value {
          return false;
        }
        pending := rest;
      }
    }
    NoPairs();
    return true;
  }

  lemma DifferentLengths(ls: seq<Node>, rs: seq<Node>)
    ensures |ls| != |rs| ==> !AllSame(ls, rs)
  {
  }

  lemma NoPairs()
    ensures PairsSame([])
  {
  }

  lemma OnePair(l: Node, r: Node)
    ensures PairsSame([(l, r)]) <==> Same(l, r)
  {
    hide Same;
    PushPair([], l, r);
    assert [] + [(l, r)] == [(l, r)];
  }

  lemma LeavesSame(l: Node, r: Node)
    requires !(l.Element? && r.Element?)
    ensures Same(l, r) <==> ((l.TextNode? && r.TextNode?) || (l.Comment? && r.Comment?)) && l.value == r.value
  {
  }

  lemma ElementWeight(l: Node)
    requires l.Element?
    ensures RM.Weight(l) >= RM.ForestWeight(l.children) + RM.ForestWeight(TemplateChildren(l))
  {
  }

  /** Equal trees have the same repair record. */
  lemma {:induction false} SameRecord(l: Node, r: Node)
    requires Same(l, r)
    ensures RD.Record(l) == RD.Record(r)
    decreases l, 0
  {
    if l.Element? {
      ElementsSame(l, r);
      SameRecords(l.children, r.children);
      if IsTemplate(l) && IsTemplate(r) {
        SameRecords(l.content, r.content);
      }
      TemplatesAgree(l, r);
    }
  }

  lemma TemplatesAgree(l: Node, r: Node)
    requires l.Element? && r.Element? && Same(l, r)
    requires RD.Namespace(l) == RD.Namespace(r)
    ensures RD.Marker(l) == RD.Marker(r) && RD.ShadowMode(l) == RD.ShadowMode(r)
    ensures SignAll(TemplateChildren(l)) == SignAll(TemplateChildren(r))
  {
  }

  lemma {:induction false} SameRecords(ls: seq<Node>, rs: seq<Node>)
    requires RD.AllSupported(ls) && RD.AllSupported(rs) && SignAll(ls) == SignAll(rs)
    ensures RD.Records(ls) == RD.Records(rs)
    decreases ls, 1
  {
    if ls != [] {
      assert SignAll(ls)[0] == Sign(ls[0]) && SignAll(ls)[1..] == SignAll(ls[1..]);
      assert SignAll(rs)[0] == Sign(rs[0]) && SignAll(rs)[1..] == SignAll(rs[1..]);
      SameRecord(ls[0], rs[0]);
      SameRecords(ls[1..], rs[1..]);
    }
  }

  // --- What the record tells ---

  /** Every element has a marker, and no template an empty shadow mode. */
  ghost predicate Plain(node: Node) {
    node.Element? ==>
      && MarkerOf(node).Some? && ShadowModeFor(node) != Some([])
      && AllPlain(node.children) && (IsTemplate(node) ==> AllPlain(node.content))
  }

  ghost predicate AllPlain(nodes: seq<Node>) {
    nodes == [] || (Plain(nodes[0]) && AllPlain(nodes[1..]))
  }

  /** Among trees with markers and without empty modes, the record is the tree as the
      comparison sees it. */
  lemma RecordTells(l: Node, r: Node)
    requires RD.Supported(l) && RD.Supported(r) && Plain(l) && Plain(r)
    ensures RD.Record(l) == RD.Record(r) <==> Same(l, r)
  {
    if RD.Record(l) == RD.Record(r) {
      PlainRecord(l, r);
    } else if Same(l, r) {
      SameRecord(l, r);
    }
  }

  lemma {:induction false} PlainRecord(l: Node, r: Node)
    requires RD.Supported(l) && RD.Supported(r) && Plain(l) && Plain(r) && RD.Record(l) == RD.Record(r)
    ensures Sign(l) == Sign(r)
    decreases l, 0
  {
    if l.Element? {
      PlainRecords(l.children, r.children);
      if IsTemplate(l) {
        PlainRecords(l.content, TemplateChildren(r));
      }
    }
  }

  lemma {:induction false} PlainRecords(ls: seq<Node>, rs: seq<Node>)
    requires RD.AllSupported(ls) && RD.AllSupported(rs) && AllPlain(ls) && AllPlain(rs) && RD.Records(ls) == RD.Records(rs)
    ensures SignAll(ls) == SignAll(rs)
    decreases ls, 1
  {
    if ls != [] && rs != [] {
      assert RD.Records(ls)[0] == RD.Record(ls[0]) && RD.Records(ls)[1..] == RD.Records(ls[1..]);
      assert RD.Records(rs)[0] == RD.Record(rs[0]) && RD.Records(rs)[1..] == RD.Records(rs[1..]);
      PlainRecord(ls[0], rs[0]);
      PlainRecords(ls[1..], rs[1..]);
    }
  }

  /** An element that another one could stand for: its marker is missing or empty, or it
      is called a template and has no shadow mode or an empty one. */
  ghost predicate Vague(element: Node)
    requires element.Element?
  {
    || RD.Marker(element) == []
    || (RD.Namespace(element) == HTML_NAMESPACE && element.name == TEMPLATE && RD.ShadowMode(element).None?)
  }

  ghost predicate Telling(node: Node) {
    node.Element? ==>
      !Vague(node) && AllTelling(node.children) && (IsTemplate(node) ==> AllTelling(node.content))
  }

  ghost predicate AllTelling(nodes: seq<Node>) {
    nodes == [] || (Telling(nodes[0]) && AllTelling(nodes[1..]))
  }

  lemma {:induction false} TellingRecord(l: Node, r: Node)
    requires RD.Supported(l) && RD.Supported(r) && Telling(l) && RD.Record(l) == RD.Record(r)
    ensures Sign(l) == Sign(r)
    decreases l, 0
  {
    if l.Element? {
      TellingRecords(l.children, r.children);
      if IsTemplate(l) {
        TellingRecords(l.content, TemplateChildren(r));
      }
    }
  }

  lemma {:induction false} TellingRecords(ls: seq<Node>, rs: seq<Node>)
    requires RD.AllSupported(ls) && RD.AllSupported(rs) && AllTelling(ls) && RD.Records(ls) == RD.Records(rs)
    ensures SignAll(ls) == SignAll(rs)
    decreases ls, 1
  {
    if ls != [] && rs != [] {
      assert RD.Records(ls)[0] == RD.Record(ls[0]) && RD.Records(ls)[1..] == RD.Records(ls[1..]);
      assert RD.Records(rs)[0] == RD.Record(rs[0]) && RD.Records(rs)[1..] == RD.Records(rs[1..]);
      TellingRecord(ls[0], rs[0]);
      TellingRecords(ls[1..], rs[1..]);
    }
  }

  /** The attribute absent if it was there, and empty if it was absent. */
  function Blank(attrs: seq<Attr>, name: Str): seq<Attr> {
    if GetAttribute(attrs, name).Some? then Others(attrs, name) else [Attr(name, [])] + attrs
  }

  lemma BlankReads(attrs: seq<Attr>, name: Str, other: Str)
    ensures GetAttribute(Blank(attrs, name), other) ==
      if other != name then GetAttribute(attrs, other)
      else if GetAttribute(attrs, name).Some? then None else Some([])
  {
    OthersLookUp(attrs, name, other);
    assert ([Attr(name, [])] + attrs)[1..] == attrs;
  }

  /** A tree that reads differently where the tree is vague. */
  ghost function Blur(node: Node): Node
    requires !Telling(node)
    decreases node, 0
  {
    if RD.Marker(node) == [] then node.(attrs := Blank(node.attrs, RD.MARKER_ATTRIBUTE))
    else if Vague(node) && IsTemplate(node) then node.(attrs := Blank(node.attrs, RD.SHADOW_MODE))
    else if Vague(node) then
      node.(ns := Some(HTML_NAMESPACE), content := [], attrs := [Attr(RD.SHADOW_MODE, [])] + node.attrs)
    else if !AllTelling(node.children) then node.(children := BlurAll(node.children))
    else node.(content := BlurAll(node.content))
  }

  ghost function BlurAll(nodes: seq<Node>): seq<Node>
    requires !AllTelling(nodes)
    decreases nodes, 1
  {
    if !Telling(nodes[0]) then [Blur(nodes[0])] + nodes[1..] else [nodes[0]] + BlurAll(nodes[1..])
  }

  lemma AttributeNames()
    ensures RD.MARKER_ATTRIBUTE != RD.SHADOW_MODE
  {
    assert |RD.MARKER_ATTRIBUTE| == 18 && |RD.SHADOW_MODE| == 14;
  }

  lemma BlurVague(node: Node)
    requires node.Element? && RD.Supported(node) && Vague(node)
    ensures var b := Blur(node);
      RD.Supported(b) && RD.Record(b) == RD.Record(node) && Sign(b) != Sign(node)
  {
    AttributeNames();
    hide Blank;
    BlankReads(node.attrs, RD.MARKER_ATTRIBUTE, RD.MARKER_ATTRIBUTE);
    BlankReads(node.attrs, RD.MARKER_ATTRIBUTE, RD.SHADOW_MODE);
    BlankReads(node.attrs, RD.SHADOW_MODE, RD.SHADOW_MODE);
    BlankReads(node.attrs, RD.SHADOW_MODE, RD.MARKER_ATTRIBUTE);
    assert ([Attr(RD.SHADOW_MODE, [])] + node.attrs)[1..] == node.attrs;
  }

  lemma {:induction false} BlurKeepsRecord(node: Node)
    requires RD.Supported(node) && !Telling(node)
    ensures var b := Blur(node);
      RD.Supported(b) && RD.Record(b) == RD.Record(node) && Sign(b) != Sign(node)
    decreases node, 0
  {
    if Vague(node) {
      BlurVague(node);
    } else if !AllTelling(node.children) {
      BlurAllKeepsRecords(node.children);
    } else {
      BlurAllKeepsRecords(node.content);
    }
  }

  lemma {:induction false} BlurAllKeepsRecords(nodes: seq<Node>)
    requires RD.AllSupported(nodes) && !AllTelling(nodes)
    ensures var b := BlurAll(nodes);
      RD.AllSupported(b) && RD.Records(b) == RD.Records(nodes) && SignAll(b) != SignAll(nodes)
    decreases nodes, 1
  {
    var b := BlurAll(nodes);
    if !Telling(nodes[0]) {
      BlurKeepsRecord(nodes[0]);
      assert b[0] == Blur(nodes[0]) && b[1..] == nodes[1..];
      assert SignAll(b)[0] == Sign(b[0]) && SignAll(nodes)[0] == Sign(nodes[0]);
    } else {
      BlurAllKeepsRecords(nodes[1..]);
      assert b[0] == nodes[0] && b[1..] == BlurAll(nodes[1..]);
      assert SignAll(b)[1..] == SignAll(b[1..]) && SignAll(nodes)[1..] == SignAll(nodes[1..]);
    }
  }

  /** The record determines a tree, among all trees, exactly when every element has a
      marker that is not empty and every template a shadow mode that is not empty. */
  lemma RecordDeterminesTree(l: Node)
    requires RD.Supported(l)
    ensures (forall r :: RD.Supported(r) && RD.Record(r) == RD.Record(l) ==> Same(l, r)) <==> Telling(l)
  {
    if Telling(l) {
      forall r | RD.Supported(r) && RD.Record(r) == RD.Record(l)
        ensures Same(l, r)
      {
        TellingRecord(l, r);
      }
    } else {
      BlurKeepsRecord(l);
      assert !Same(l, Blur(l));
    }
  }

  /** An empty shadow mode is lost: with and without it a template has one record,
      although the comparison tells the two apart. */
  lemma EmptyModeLost(template: Node)
    requires template.Element? && IsTemplate(template) && RD.Supported(template) && ShadowModeFor(template).None?
    ensures var moded := template.(attrs := template.attrs + [Attr(RD.SHADOW_MODE, [])]);
      && RD.Supported(moded) && ShadowModeFor(moded) == Some([])
      && RD.Record(moded) == RD.Record(template) && !Same(moded, template)
  {
    AttributeNames();
    AppendedReads(template.attrs, RD.SHADOW_MODE, RD.SHADOW_MODE);
    AppendedReads(template.attrs, RD.SHADOW_MODE, RD.MARKER_ATTRIBUTE);
  }

  lemma {:induction false} AppendedReads(attrs: seq<Attr>, name: Str, other: Str)
    requires GetAttribute(attrs, name).None?
    ensures GetAttribute(attrs + [Attr(name, [])], other) == if other == name then Some([]) else GetAttribute(attrs, other)
  {
    if attrs == [] {
      assert attrs + [Attr(name, [])] == [Attr(name, [])] && [Attr(name, [])][1..] == [];
    } else {
      AppendedReads(attrs[1..], name, other);
      assert (attrs + [Attr(name, [])])[1..] == attrs[1..] + [Attr(name, [])];
    }
  }

  // --- Serializing with a record ---

  const HEAD: Str := Ascii("head")

  function RepairScript(data: Str): Node {
    Element(Some(HTML_NAMESPACE), Ascii("script"),
            [Attr(Ascii("id"), Ascii("offprint-repair-data")),
             Attr(Ascii("type"), Ascii("application/vnd.offprint.repair+json"))],
            [TextNode(data)], [], NoShadow)
  }

  /** The nodes with `script` appended to the first `head` among them and below. */
  function AppendToHead(nodes: seq<Node>, script: Node): Option<seq<Node>> {
    if nodes == [] then None
    else
      var node := nodes[0];
      if node.Element? && node.name == HEAD then Some([node.(children := node.children + [script])] + nodes[1..])
      else
        var inside := if node.Element? then AppendToHead(node.children, script) else None;
        if inside.Some? then Some([node.(children := inside.value)] + nodes[1..])
        else
          match AppendToHead(nodes[1..], script)
          case None => None
          case Some(rest) => Some([node] + rest)
  }

  datatype DocumentResult = Serialized(result: BoundedResult<Str>) | Threw

  /** The reparsed document differs from the tree, or the parser refused. */
  ghost predicate NeedsRepair(marked: Node, text: Str, reparse: Str -> Option<Node>) {
    reparse(text).None? || !Same(marked, reparse(text).value)
  }

  method RequiresStructuralRepair(marked: Node, text: Str, reparse: Str -> Option<Node>) returns (r: bool)
    ensures r <==> NeedsRepair(marked, text, reparse)
  {
    var reparsed := reparse(text);
    if reparsed.None? {
      return true;
    }
    var equal := RepairNodesEqual(marked, reparsed.value);
    return !equal;
  }

  /** The serialization owed for a tree that carries a repair record. */
  ghost function RepairedResult(marked: Node, maximumBytes: nat): DocumentResult
    requires marked.Element?
  {
    match RM.Owed(RM.RecordOut(marked), maximumBytes)
    case Unsupported => Threw
    case Written(Limit(attempted)) => Serialized(Limit(attempted))
    case Written(Ok(_, data)) =>
      match AppendToHead(marked.children, RepairScript(data))
      case None => Threw
      case Some(children) => Serialized(Bounded(Pieces(marked.(children := children), false), maximumBytes))
  }

  /** What the document serializer owes for a tree. */
  ghost function DocumentOutcome(root: Node, maximumBytes: nat, reparse: Str -> Option<Node>): DocumentResult
    requires root.Element?
  {
    var marked := Mark(root, 0);
    var first := Bounded(Pieces(marked, false), maximumBytes);
    if first.Limit? then Serialized(first)
    else if NeedsRepair(marked, first.value, reparse) then RepairedResult(marked, maximumBytes)
    else Serialized(Bounded(Pieces(Unmark(root), false), maximumBytes))
  }

  /** A document that is within a limit comes out the same under every larger one. */
  lemma OutcomeStays(root: Node, maximumBytes: nat, more: nat, reparse: Str -> Option<Node>)
    requires root.Element? && maximumBytes <= more
    requires var outcome := DocumentOutcome(root, maximumBytes, reparse); outcome.Serialized? && outcome.result.Ok?
    ensures DocumentOutcome(root, more, reparse) == DocumentOutcome(root, maximumBytes, reparse)
    ensures DocumentOutcome(root, maximumBytes, reparse).result.bytes <= maximumBytes
  {
    hide Pieces, Mark, Unmark, Walk, Same, AppendToHead, RM.RecordOut, Encode, EncodeAll, Join, TotalWidth, Utf8Length;
  }

  /** `repaired` tells whether the record was attached. Without it the output is the
      unmarked tree, and that happens only when the marked text reparses to an equal
      tree; a document that comes out never exceeds the limit. */
  method SerializeDocumentWithRepair(root: Node, maximumBytes: nat, reparse: Str -> Option<Node>)
    returns (r: DocumentResult, repaired: bool)
    requires root.Element? && maximumBytes <= MAX_SAFE_INTEGER
    ensures r == DocumentOutcome(root, maximumBytes, reparse)
    ensures var first := Bounded(Pieces(Mark(root, 0), false), maximumBytes);
      && (first.Limit? ==> r == Serialized(first) && !repaired)
      && (first.Ok? ==> repaired == NeedsRepair(Mark(root, 0), first.value, reparse))
      && (first.Ok? && !repaired ==> r == Serialized(Bounded(Pieces(Unmark(root), false), maximumBytes)))
      && (first.Ok? && !repaired && Unmarked(Walk(root)) ==> r == Serialized(Bounded(Pieces(root, false), maximumBytes)))
      && (repaired ==> r == RepairedResult(Mark(root, 0), maximumBytes))
    ensures r.Serialized? && r.result.Ok? ==>
      r.result.bytes <= maximumBytes && Utf8Length(r.result.value) <= r.result.bytes
  {
    hide Pieces, Mark, Unmark, Walk, Same, AppendToHead, RM.RecordOut, Encode, EncodeAll, Join;
    var marked := Mark(root, 0);
    MarkedElement(root);
    repaired := false;
    var first := SerializeHtmlBounded(marked, maximumBytes);
    if first.Limit? {
      return Serialized(first), false;
    }
    repaired := RequiresStructuralRepair(marked, first.value, reparse);
    var output: Node;
    if repaired {
      var data, _ := RM.SerializeRepairDataBounded(marked, maximumBytes);
      if data.Unsupported? {
        return Threw, true;
      }
      if data.result.Limit? {
        return Serialized(data.result), true;
      }
      var children := AppendToHead(marked.children, RepairScript(data.result.value));
      if children.None? {
        return Threw, true;
      }
      output := marked.(children := children.value);
    } else {
      output := Unmark(marked);
      UnmarkUndoesMark(root, 0);
      if Unmarked(Walk(root)) {
        UnmarkKeepsUnmarked(root);
      }
    }
    var result := SerializeHtmlBounded(output, maximumBytes);
    CountedBytes(Pieces(output, false));
    r := Serialized(result);
  }

  lemma MarkedElement(root: Node)
    requires root.Element?
    ensures Mark(root, 0).Element? && Unmark(Mark(root, 0)).Element?
  {
  }

  /** Without a record the reparsed tree has the record the original would have had, so
      nothing is lost by leaving it out. */
  lemma RecordOmittedOnlyWhenRedundant(root: Node, text: Str, reparse: Str -> Option<Node>)
    requires root.Element? && !NeedsRepair(Mark(root, 0), text, reparse)
    ensures var marked := Mark(root, 0);
      && reparse(text).Some? && RD.Supported(marked) && RD.Supported(reparse(text).value)
      && RD.Record(reparse(text).value) == RD.Record(marked)
  {
    hide Mark, RD.Record;
    SameRecord(Mark(root, 0), reparse(text).value);
  }
}
