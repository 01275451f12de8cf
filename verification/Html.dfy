/**
 The explicit-stack HTML serializer. It answers exactly what a recursive printer
 would, although it ignores some write results and leaves inner loops early.
 */
module Html {
  import opened Text
  import opened Writer
  import opened Escape
  import opened Dom

  const VOID_ELEMENTS: set<Str> := {
    Ascii("area"), Ascii("base"), Ascii("basefont"), Ascii("bgsound"), Ascii("br"), Ascii("col"),
    Ascii("embed"), Ascii("hr"), Ascii("img"), Ascii("input"), Ascii("link"), Ascii("meta"),
    Ascii("param"), Ascii("source"), Ascii("track"), Ascii("wbr")
  }
  const RAW_TEXT_ELEMENTS: set<Str> := {
    Ascii("script"), Ascii("style"), Ascii("xmp"), Ascii("iframe"), Ascii("noembed"), Ascii("noframes")
  }

  predicate IsVoid(node: Node)
    requires node.Element?
  {
    IsHtml(node) && node.name in VOID_ELEMENTS
  }

  predicate IsRawText(node: Node)
    requires node.Element?
  {
    IsHtml(node) && node.name in RAW_TEXT_ELEMENTS
  }

  // --- Recursive printer, as the sequence of pieces it produces ---

  function AttributePieces(attrs: seq<Attr>): seq<Str> {
    if attrs == [] then []
    else AttributeTriple(attrs[0]) + AttributePieces(attrs[1..])
  }

  function AttributeTriple(attr: Attr): seq<Str> {
    [[32] + attr.name + [61, 34], Escaped(attr.value, Attribute), [34]]
  }

  function OpenPieces(name: Str, attrs: seq<Attr>): seq<Str> {
    [[60] + name] + AttributePieces(attrs) + [[62]]
  }

  function ClosePiece(name: Str): Str {
    [60, 47] + name + [62]
  }

  function CommentPieces(value: Str): seq<Str> {
    [Ascii("<!--"), value, Ascii("-->")]
  }

  function Pieces(node: Node, rawText: bool): seq<Str> {
    match node
    case TextNode(value) => [Escaped(value, if rawText then Raw else Plain)]
    case Comment(value) => CommentPieces(value)
    case Doctype(_) => [[]]
    case OtherNode(value) => [value]
    case Element(_, name, attrs, children, content, _) =>
      OpenPieces(name, attrs) +
      if IsVoid(node) then []
      else
        (if IsTemplate(node) then ChildrenPieces(content, IsRawText(node))
         else ChildrenPieces(children, IsRawText(node))) + [ClosePiece(name)]
  }

  function ChildrenPieces(nodes: seq<Node>, rawText: bool): seq<Str> {
    if nodes == [] then [] else Pieces(nodes[0], rawText) + ChildrenPieces(nodes[1..], rawText)
  }

  // --- The machine ---

  datatype Task = Close(name: Str) | NodeTask(node: Node, rawText: bool)

  function TaskPieces(task: Task): seq<Str> {
    match task
    case Close(name) => [ClosePiece(name)]
    case NodeTask(node, rawText) => Pieces(node, rawText)
  }

  /** The pieces a stack of tasks still has to produce, top of the stack first. */
  function Remaining(pending: seq<Task>): seq<Str> {
    if pending == [] then []
    else TaskPieces(pending[|pending| - 1]) + Remaining(pending[..|pending| - 1])
  }

  lemma PushTask(pending: seq<Task>, task: Task)
    ensures Remaining(pending + [task]) == TaskPieces(task) + Remaining(pending)
  {
    assert (pending + [task])[..|pending|] == pending;
  }

  method WriteAttribute(writer: BoundedWriter, attr: Attr) returns (ok: bool)
    requires writer.Valid()
    modifies writer
    ensures writer.Valid() && writer.offered == old(writer.offered) + AttributeTriple(attr)
    ensures ok == !writer.overflow
  {
    hide Encode, EncodeAll, Join, Escaped;
    ghost var before := writer.offered;
    ok := writer.Write([32] + attr.name + [61, 34]);
    if !ok {
      writer.Presume([Escaped(attr.value, Attribute), [34]]);
    } else {
      ok := WriteEscaped(writer, attr.value, Attribute);
      if !ok {
        writer.Presume([[34]]);
      } else {
        ok := writer.Write([34]);
      }
    }
    assert writer.offered == before + AttributeTriple(attr);
  }

  /** Attributes; a write that fails leaves this loop only. */
  method WriteAttributes(writer: BoundedWriter, attrs: seq<Attr>)
    requires writer.Valid()
    modifies writer
    ensures writer.Valid() && writer.offered == old(writer.offered) + AttributePieces(attrs)
  {
    hide Encode, EncodeAll, Join, AttributePieces, AttributeTriple;
    ghost var before := writer.offered;
    AttributesDone(attrs, before);
    for i := 0 to |attrs|
      invariant writer.Valid() && writer.offered + AttributePieces(attrs[i..]) == before + AttributePieces(attrs)
    {
      AttributesStep(attrs, i, writer.offered);
      var ok := WriteAttribute(writer, attrs[i]);
      if !ok {
        writer.Presume(AttributePieces(attrs[i + 1..]));
        break;
      }
    }
    AttributesDone(attrs, writer.offered);
  }

  lemma AttributesDone(attrs: seq<Attr>, offered: seq<Str>)
    ensures offered + AttributePieces(attrs[|attrs|..]) == offered
    ensures attrs[0..] == attrs
  {
  }

  lemma AttributesStep(attrs: seq<Attr>, i: nat, offered: seq<Str>)
    requires i < |attrs|
    ensures offered + AttributePieces(attrs[i..]) ==
      (offered + AttributeTriple(attrs[i])) + AttributePieces(attrs[i + 1..])
  {
    assert attrs[i..][1..] == attrs[i + 1..];
  }

  /** The start tag. */
  method WriteOpen(writer: BoundedWriter, name: Str, attrs: seq<Attr>) returns (ok: bool)
    requires writer.Valid()
    modifies writer
    ensures writer.Valid() && writer.offered == old(writer.offered) + OpenPieces(name, attrs)
    ensures ok == !writer.overflow
  {
    hide Encode, EncodeAll, Join, AttributePieces;
    ghost var before := writer.offered;
    ok := writer.Write([60] + name);
    if !ok {
      writer.Presume(AttributePieces(attrs) + [[62]]);
    } else {
      WriteAttributes(writer, attrs);
      ok := writer.Write([62]);
    }
    assert writer.offered == before + OpenPieces(name, attrs);
  }

  method WriteComment(writer: BoundedWriter, value: Str) returns (ok: bool)
    requires writer.Valid()
    modifies writer
    ensures writer.Valid() && writer.offered == old(writer.offered) + CommentPieces(value)
    ensures ok == !writer.overflow
  {
    hide Encode, EncodeAll, Join;
    ghost var before := writer.offered;
    ok := writer.Write(Ascii("<!--"));
    if !ok {
      writer.Presume([value, Ascii("-->")]);
    } else {
      ok := writer.Write(value);
      if !ok {
        writer.Presume([Ascii("-->")]);
      } else {
        ok := writer.Write(Ascii("-->"));
      }
    }
    assert writer.offered == before + CommentPieces(value);
  }

  /** Children are pushed last first, so that they pop in document order. */
  method PushChildren(pending: seq<Task>, nodes: seq<Node>, rawText: bool) returns (r: seq<Task>)
    ensures Remaining(r) == ChildrenPieces(nodes, rawText) + Remaining(pending)
  {
    hide Remaining, Pieces;
    r := pending;
    assert nodes[|nodes|..] == [] && [] + Remaining(pending) == Remaining(pending);
    for index := |nodes| downto 0
      invariant Remaining(r) == ChildrenPieces(nodes[index..], rawText) + Remaining(pending)
    {
      PushTask(r, NodeTask(nodes[index], rawText));
      assert nodes[index..][1..] == nodes[index + 1..];
      ConcatAssociates(Pieces(nodes[index], rawText), ChildrenPieces(nodes[index + 1..], rawText), Remaining(pending));
      r := r + [NodeTask(nodes[index], rawText)];
    }
    assert nodes[0..] == nodes;
  }

  /** What an element leaves to do after its start tag. */
  function AfterOpen(node: Node): seq<Str>
    requires node.Element?
  {
    if IsVoid(node) then []
    else ChildrenPieces(if IsTemplate(node) then node.content else node.children, IsRawText(node))
         + [ClosePiece(node.name)]
  }

  lemma ElementPieces(node: Node, rawText: bool)
    requires node.Element?
    ensures Pieces(node, rawText) == OpenPieces(node.name, node.attrs) + AfterOpen(node)
  {
    hide AttributePieces, ChildrenPieces;
  }

  /** Push the end tag and the children of an element whose start tag is written. */
  method PushElement(pending: seq<Task>, element: Node) returns (r: seq<Task>)
    requires element.Element?
    ensures Remaining(r) == AfterOpen(element) + Remaining(pending)
  {
    hide Remaining, ChildrenPieces;
    if IsVoid(element) {
      assert AfterOpen(element) + Remaining(pending) == Remaining(pending);
      return pending;
    }
    PushTask(pending, Close(element.name));
    r := pending + [Close(element.name)];
    var childRoot := if IsTemplate(element) then element.content else element.children;
    r := PushChildren(r, childRoot, IsRawText(element));
    ConcatAssociates(ChildrenPieces(childRoot, IsRawText(element)), [ClosePiece(element.name)], Remaining(pending));
  }

  /** Write what a task writes itself; `stop` says that the machine must leave its loop. */
  method Emit(writer: BoundedWriter, task: Task) returns (stop: bool, ghost emitted: seq<Str>)
    requires writer.Valid()
    modifies writer
    ensures writer.Valid() && writer.offered == old(writer.offered) + emitted
    ensures stop ==> writer.overflow
    ensures emitted == if task.NodeTask? && task.node.Element?
                       then OpenPieces(task.node.name, task.node.attrs) else TaskPieces(task)
  {
    hide Encode, EncodeAll, Join, Escaped, OpenPieces, ChildrenPieces;
    var ok: bool;
    match task {
    case Close(name) =>
      ok := writer.Write(ClosePiece(name));
      emitted := [ClosePiece(name)];
    case NodeTask(TextNode(value), rawText) =>
      var ignored := WriteEscaped(writer, value, if rawText then Raw else Plain);
      ok, emitted := true, [Escaped(value, if rawText then Raw else Plain)];
    case NodeTask(Comment(value), _) =>
      ok := WriteComment(writer, value);
      emitted := CommentPieces(value);
    case NodeTask(Doctype(_), _) =>
      ok := writer.Write([]);
      emitted := [[]];
    case NodeTask(OtherNode(value), _) =>
      ok := writer.Write(value);
      emitted := [value];
    case NodeTask(Element(_, name, attrs, _, _, _), _) =>
      ok := WriteOpen(writer, name, attrs);
      emitted := OpenPieces(name, attrs);
    }
    stop := !ok;
  }

  /** The serializer answers as if the pieces of the recursive printer had been written
      in order: their joined text when their widths fit the limit, the limit otherwise. */
  method SerializeHtmlBounded(root: Node, maximumBytes: nat) returns (r: BoundedResult<Str>)
    requires root.Element? && maximumBytes <= MAX_SAFE_INTEGER
    ensures r == Bounded(Pieces(root, false), maximumBytes)
  {
    hide Encode, EncodeAll, Join, Remaining, Pieces, Bounded, OpenPieces, AfterOpen;
    var writer := new BoundedWriter(maximumBytes);
    var pending := [NodeTask(root, false)];
    OneTask(NodeTask(root, false));
    while pending != []
      invariant writer.Valid() && writer.maximumBytes == maximumBytes
      invariant writer.offered + Remaining(pending) == Pieces(root, false)
      invariant fresh(writer)
      decreases |Remaining(pending)|
    {
      var task := pending[|pending| - 1];
      var rest := pending[..|pending| - 1];
      assert pending == rest + [task];
      PushTask(rest, task);
      ghost var before := writer.offered;
      var stop, emitted := Emit(writer, task);
      TaskSplits(task, emitted, before, Remaining(rest));
      if stop {
        writer.Presume(AfterEmit(task) + Remaining(rest));
        break;
      }
      if task.NodeTask? && task.node.Element? {
        pending := PushElement(rest, task.node);
      } else {
        pending := rest;
        assert AfterEmit(task) + Remaining(rest) == Remaining(rest);
      }
    }
    OneTask(NodeTask(root, false));
    assert writer.offered == Pieces(root, false);
    r := writer.ResultString();
  }

  /** What a task leaves to the stack. */
  function AfterEmit(task: Task): seq<Str> {
    if task.NodeTask? && task.node.Element? then AfterOpen(task.node) else []
  }

  /** Pieces written and pieces left to the stack make up the pieces of the task. */
  lemma TaskSplits(task: Task, emitted: seq<Str>, before: seq<Str>, later: seq<Str>)
    requires emitted == if task.NodeTask? && task.node.Element?
                        then OpenPieces(task.node.name, task.node.attrs) else TaskPieces(task)
    ensures emitted != []
    ensures before + (TaskPieces(task) + later) == (before + emitted) + (AfterEmit(task) + later)
    ensures |TaskPieces(task) + later| > |AfterEmit(task) + later|
  {
    hide TaskPieces, AfterEmit, OpenPieces;
    TaskEmits(task, emitted);
    ConcatAssociates(emitted, AfterEmit(task), later);
    ConcatAssociates(before, emitted, AfterEmit(task) + later);
  }

  lemma TaskEmits(task: Task, emitted: seq<Str>)
    requires emitted == if task.NodeTask? && task.node.Element?
                        then OpenPieces(task.node.name, task.node.attrs) else TaskPieces(task)
    ensures emitted != [] && TaskPieces(task) == emitted + AfterEmit(task)
  {
    hide AttributePieces, ChildrenPieces, AfterOpen;
    if task.NodeTask? && task.node.Element? {
      ElementPieces(task.node, task.rawText);
    } else {
      assert TaskPieces(task) + [] == TaskPieces(task);
    }
  }

  lemma OneTask(task: Task)
    ensures [] + Remaining([task]) == TaskPieces(task)
    ensures Remaining([]) == []
  {
    PushTask([], task);
    assert [] + [task] == [task];
  }
}
