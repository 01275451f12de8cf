/** The task machine that writes the structural repair record. */
module RepairMachine {
  import opened Text
  import opened Writer
  import opened Escape
  import opened Json
  import opened JsonMachine
  import opened Dom
  import opened RepairData

  // --- What is written, up to the first node the record cannot hold ---

  datatype Out = Out(text: Str, complete: bool)

  function Then(a: Out, b: Out): Out {
    if a.complete then Out(a.text + b.text, b.complete) else a
  }

  datatype Token = Lit(text: Str) | Quote(s: Str)

  function TokenText(token: Token): Str {
    match token
    case Lit(text) => text
    case Quote(s) => Quoted(s, ScriptJson)
  }

  function TokensText(tokens: seq<Token>): Str {
    if tokens == [] then [] else TokenText(tokens[0]) + TokensText(tokens[1..])
  }

  function LeafTokens(kind: string, value: Str): seq<Token> {
    [Lit(Ascii(kind)), Quote(value), Lit(Ascii("}"))]
  }

  function HeadTokens(element: Node): seq<Token>
    requires element.Element?
  {
    [Lit(Ascii("{\"kind\":\"element\",\"marker\":")), Quote(Marker(element)),
     Lit(Ascii(",\"namespace\":")), Quote(Namespace(element)),
     Lit(Ascii(",\"name\":")), Quote(element.name),
     Lit(Ascii(",\"children\":["))]
  }

  function CloseTokens(shadowMode: Option<Str>): seq<Token> {
    if shadowMode.Some? && shadowMode.value != []
    then [Lit(Ascii(",\"shadowMode\":")), Quote(shadowMode.value), Lit(Ascii("}"))]
    else [Lit(Ascii("}"))]
  }

  const TEXT_HEAD := "{\"kind\":\"text\",\"value\":"
  const COMMENT_HEAD := "{\"kind\":\"comment\",\"value\":"
  const TEMPLATE_HEAD := ",\"templateContent\":["

  datatype Task =
    | NodeTask(node: Node)
    | Children(nodes: seq<Node>, first: bool)
    | Template(element: Node)
    | Close(shadowMode: Option<Str>)

  /** The tokens a task writes itself. */
  function TaskTokens(task: Task): seq<Token>
    requires ValidTask(task) && !Stuck(task)
  {
    match task
    case Children(nodes, first) =>
      if nodes == [] then [Lit(Ascii("]"))] else if first then [] else [Lit(Ascii(","))]
    case Template(_) => [Lit(Ascii(TEMPLATE_HEAD))]
    case Close(shadowMode) => CloseTokens(shadowMode)
    case NodeTask(TextNode(value)) => LeafTokens(TEXT_HEAD, value)
    case NodeTask(Comment(value)) => LeafTokens(COMMENT_HEAD, value)
    case NodeTask(Element(_, _, _, _, _, _)) => HeadTokens(task.node)
  }

  predicate ValidTask(task: Task) {
    task.Template? ==> task.element.Element?
  }

  /** A node that the record cannot hold. */
  predicate Stuck(task: Task) {
    task.NodeTask? && (task.node.Doctype? || task.node.OtherNode?)
  }

  /** The tasks that replace a task, top of the stack last. */
  function Followers(task: Task): seq<Task>
    requires ValidTask(task)
  {
    match task
    case Children(nodes, _) =>
      if nodes == [] then [] else [Children(nodes[1..], false), NodeTask(nodes[0])]
    case Template(element) =>
      [Close(if IsTemplate(element) then GetAttribute(element.attrs, SHADOW_MODE) else None),
       Children(TemplateChildren(element), true)]
    case NodeTask(node) => if node.Element? then [Template(node), Children(node.children, true)] else []
    case Close(_) => []
  }

  // --- Recursive description of the output ---

  const NothingOut := Out(TokensText([Lit(Ascii("]"))]), true)

  function NodeOut(node: Node): Out {
    match node
    case TextNode(value) => Out(TokensText(LeafTokens(TEXT_HEAD, value)), true)
    case Comment(value) => Out(TokensText(LeafTokens(COMMENT_HEAD, value)), true)
    case Element(_, _, _, children, content, _) =>
      Then(Out(TokensText(HeadTokens(node)), true),
           Then(ChildrenOut(children, true),
                TemplateOut(node, if IsTemplate(node) then ChildrenOut(content, true) else NothingOut)))
    case _ => Out([], false)
  }

  function TemplateOut(element: Node, content: Out): Out
    requires element.Element?
  {
    var mode := if IsTemplate(element) then GetAttribute(element.attrs, SHADOW_MODE) else None;
    Then(Out(TokensText([Lit(Ascii(TEMPLATE_HEAD))]), true),
         Then(content, Out(TokensText(CloseTokens(mode)), true)))
  }

  function ChildrenOut(nodes: seq<Node>, first: bool): Out {
    if nodes == [] then NothingOut
    else
      Then(Out(if first then TokensText([]) else TokensText([Lit(Ascii(","))]), true),
           Then(NodeOut(nodes[0]), ChildrenOut(nodes[1..], false)))
  }

  function TaskOut(task: Task): Out
    requires ValidTask(task)
  {
    match task
    case NodeTask(node) => NodeOut(node)
    case Children(nodes, first) => ChildrenOut(nodes, first)
    case Template(element) => TemplateOut(element, ChildrenOut(TemplateChildren(element), true))
    case Close(shadowMode) => Out(TokensText(CloseTokens(shadowMode)), true)
  }

  ghost predicate ValidStack(pending: seq<Task>) {
    forall i :: 0 <= i < |pending| ==> ValidTask(pending[i])
  }

  /** What a stack of tasks still has to write, top of the stack first. */
  ghost function Remaining(pending: seq<Task>): Out
    requires ValidStack(pending)
  {
    if pending == [] then Out([], true)
    else Then(TaskOut(pending[|pending| - 1]), Remaining(pending[..|pending| - 1]))
  }

  lemma ThenAssociates(a: Out, b: Out, c: Out)
    ensures Then(Then(a, b), c) == Then(a, Then(b, c))
  {
    ConcatAssociates(a.text, b.text, c.text);
  }

  lemma PushTask(pending: seq<Task>, task: Task)
    requires ValidStack(pending) && ValidTask(task)
    ensures ValidStack(pending + [task])
    ensures Remaining(pending + [task]) == Then(TaskOut(task), Remaining(pending))
  {
    assert (pending + [task])[..|pending|] == pending;
  }

  /** A task writes its tokens and leaves the rest to its followers. */
  lemma TaskUnfolds(rest: seq<Task>, task: Task)
    requires ValidStack(rest) && ValidTask(task) && !Stuck(task)
    ensures ValidStack(rest + Followers(task))
    ensures Then(TaskOut(task), Remaining(rest)) ==
      Then(Out(TokensText(TaskTokens(task)), true), Remaining(rest + Followers(task)))
  {
    hide TokensText, HeadTokens, LeafTokens, CloseTokens, Remaining, TemplateOut, ChildrenOut;
    var fs := Followers(task);
    var here := Out(TokensText(TaskTokens(task)), true);
    if |fs| == 2 {
      var f, g := fs[0], fs[1];
      PushTask(rest, f);
      PushTask(rest + [f], g);
      assert rest + fs == rest + [f] + [g];
      UnfoldPair(task);
      ThenAssociates(TaskOut(g), TaskOut(f), Remaining(rest));
      ThenAssociates(here, Then(TaskOut(g), TaskOut(f)), Remaining(rest));
    } else {
      assert rest + fs == rest;
      UnfoldLeaf(task);
    }
  }

  lemma UnfoldPair(task: Task)
    requires ValidTask(task) && !Stuck(task) && |Followers(task)| == 2
    ensures TaskOut(task) ==
      Then(Out(TokensText(TaskTokens(task)), true), Then(TaskOut(Followers(task)[1]), TaskOut(Followers(task)[0])))
  {
    hide TokensText, HeadTokens, LeafTokens, CloseTokens;
  }

  lemma UnfoldLeaf(task: Task)
    requires ValidTask(task) && !Stuck(task) && |Followers(task)| != 2
    ensures TaskOut(task) == Out(TokensText(TaskTokens(task)), true)
  {
    hide TokensText, HeadTokens, LeafTokens, CloseTokens;
  }

  // --- Fences: no boundary between two tokens splits a surrogate pair ---

  ghost predicate FencedTokens(tokens: seq<Token>) {
    forall i :: 0 <= i < |tokens| ==> Fenced(TokenText(tokens[i]))
  }

  lemma QuoteFenced(s: Str)
    ensures Fenced(TokenText(Quote(s)))
  {
    hide Escaped;
  }

  lemma LitFenced(s: string)
    requires s != "" && s[0] as int < 0x80 && s[|s| - 1] as int < 0x80
    ensures Fenced(TokenText(Lit(Ascii(s))))
  {
  }

  lemma HeadFenced(element: Node)
    requires element.Element?
    ensures FencedTokens(HeadTokens(element))
  {
    hide TokenText, Ascii;
    LitFenced("{\"kind\":\"element\",\"marker\":");
    LitFenced(",\"namespace\":");
    LitFenced(",\"name\":");
    LitFenced(",\"children\":[");
    QuoteFenced(Marker(element));
    QuoteFenced(Namespace(element));
    QuoteFenced(element.name);
  }

  lemma LeafFenced(kind: string, value: Str)
    requires kind == TEXT_HEAD || kind == COMMENT_HEAD
    ensures FencedTokens(LeafTokens(kind, value))
  {
    hide TokenText, Ascii;
    LitFenced(kind);
    QuoteFenced(value);
    LitFenced("}");
  }

  lemma CloseFenced(mode: Option<Str>)
    ensures FencedTokens(CloseTokens(mode))
  {
    hide TokenText, Ascii;
    LitFenced(",\"shadowMode\":");
    LitFenced("}");
    if mode.Some? {
      QuoteFenced(mode.value);
    }
  }

  lemma TaskFenced(task: Task)
    requires ValidTask(task) && !Stuck(task)
    ensures FencedTokens(TaskTokens(task))
  {
    hide HeadTokens, LeafTokens, CloseTokens, TokenText, Ascii;
    match task
    case Children(_, _) =>
      LitFenced("]");
      LitFenced(",");
    case Template(_) => LitFenced(TEMPLATE_HEAD);
    case Close(mode) => CloseFenced(mode);
    case NodeTask(TextNode(value)) => LeafFenced(TEXT_HEAD, value);
    case NodeTask(Comment(value)) => LeafFenced(COMMENT_HEAD, value);
    case NodeTask(element) => HeadFenced(element);
  }

  lemma {:induction false} TokensClosed(tokens: seq<Token>)
    requires FencedTokens(tokens)
    ensures tokens != [] ==> Fenced(TokensText(tokens))
  {
    if tokens != [] {
      TokensClosed(tokens[1..]);
    }
  }

  ghost predicate OpensPlain(s: Str) {
    s == [] || s[0] < 0x80
  }

  lemma {:induction false} RemainingOpensPlain(pending: seq<Task>)
    requires ValidStack(pending)
    ensures OpensPlain(Remaining(pending).text)
  {
    hide TokensText, HeadTokens, LeafTokens, CloseTokens;
    if pending != [] {
      var top := pending[|pending| - 1];
      RemainingOpensPlain(pending[..|pending| - 1]);
      TaskOpensPlain(top);
    }
  }

  lemma {:induction false} TaskOpensPlain(task: Task)
    requires ValidTask(task)
    ensures OpensPlain(TaskOut(task).text)
  {
    hide TokensText, HeadTokens, LeafTokens, CloseTokens, TaskTokens, TemplateOut, NodeOut, ChildrenOut;
    if Stuck(task) {
      StuckOut(task);
    } else {
      TaskFenced(task);
      TokensClosed(TaskTokens(task));
      NoTokens();
      if |Followers(task)| == 2 {
        UnfoldPair(task);
        if TaskTokens(task) == [] {
          FirstChild(task);
        }
      } else {
        UnfoldLeaf(task);
      }
    }
  }

  lemma NoTokens()
    ensures TokensText([]) == []
  {
  }

  lemma StuckOut(task: Task)
    requires Stuck(task)
    ensures TaskOut(task) == Out([], false)
  {
  }

  /** The one task without tokens is the cursor at a first child. */
  lemma FirstChild(task: Task)
    requires ValidTask(task) && !Stuck(task) && |Followers(task)| == 2 && TaskTokens(task) == []
    ensures OpensPlain(Then(TaskOut(Followers(task)[1]), TaskOut(Followers(task)[0])).text)
  {
    hide TokensText, TemplateOut, NodeOut, ChildrenOut;
    assert task.Children? && task.nodes != [] && task.first;
    NodeOpensPlain(task.nodes[0]);
  }

  lemma NodeOpensPlain(node: Node)
    ensures NodeOut(node).complete ==> NodeOut(node).text != []
    ensures OpensPlain(NodeOut(node).text)
  {
    hide TokensText, HeadTokens, LeafTokens, CloseTokens, TaskTokens, TemplateOut, ChildrenOut;
    var task := NodeTask(node);
    if Stuck(task) {
      StuckOut(task);
    } else {
      HeadNonempty(node);
      TaskFenced(task);
      TokensClosed(TaskTokens(task));
      if node.Element? {
        UnfoldPair(task);
      } else {
        UnfoldLeaf(task);
      }
    }
  }

  lemma HeadNonempty(node: Node)
    requires !Stuck(NodeTask(node))
    ensures TaskTokens(NodeTask(node)) != []
  {
  }

  // --- Depth of the tree and size of the stack ---

  function Max(a: nat, b: nat): nat {
    if a < b then b else a
  }

  /** Nodes on the longest path from a node down, template content included. */
  function Levels(node: Node): nat {
    if !node.Element? then 1
    else 1 + Max(ForestLevels(node.children), if IsTemplate(node) then ForestLevels(node.content) else 0)
  }

  function ForestLevels(nodes: seq<Node>): nat {
    if nodes == [] then 0 else Max(Levels(nodes[0]), ForestLevels(nodes[1..]))
  }

  /** Edges on the longest path below a node. */
  function Depth(node: Node): nat {
    Levels(node) - 1
  }

  /** Stack entries a task may need at once, its own included. */
  function Room(task: Task): nat
    requires ValidTask(task)
  {
    match task
    case NodeTask(node) => 2 * Levels(node)
    case Children(nodes, _) => 1 + 2 * ForestLevels(nodes)
    case Template(element) => 2 + 2 * ForestLevels(TemplateChildren(element))
    case Close(_) => 1
  }

  /** Every entry has room above it within the bound. */
  ghost predicate Fits(pending: seq<Task>, bound: nat)
    requires ValidStack(pending)
  {
    forall i :: 0 <= i < |pending| ==> i + Room(pending[i]) <= bound
  }

  lemma FollowersFit(rest: seq<Task>, task: Task, bound: nat)
    requires ValidStack(rest) && ValidTask(task) && Fits(rest, bound)
    requires |rest| + Room(task) <= bound
    ensures ValidStack(rest + Followers(task)) && Fits(rest + Followers(task), bound)
    ensures |rest + Followers(task)| <= bound
  {
    match task
    case NodeTask(node) =>
    case Children(nodes, _) =>
      if nodes != [] {
        assert Levels(nodes[0]) >= 1;
      }
    case Template(element) =>
    case Close(_) =>
  }

  // --- Termination ---

  function Weight(node: Node): nat {
    if !node.Element? then 1
    else 6 + ForestWeight(node.children) + if IsTemplate(node) then ForestWeight(node.content) else 0
  }

  function ForestWeight(nodes: seq<Node>): nat {
    if nodes == [] then 0 else 1 + Weight(nodes[0]) + ForestWeight(nodes[1..])
  }

  function TaskWeight(task: Task): nat
    requires ValidTask(task)
  {
    match task
    case NodeTask(node) => Weight(node)
    case Children(nodes, _) => 1 + ForestWeight(nodes)
    case Template(element) => 4 + ForestWeight(TemplateChildren(element))
    case Close(_) => 1
  }

  ghost function StackWeight(pending: seq<Task>): nat
    requires ValidStack(pending)
  {
    if pending == [] then 0 else TaskWeight(pending[|pending| - 1]) + StackWeight(pending[..|pending| - 1])
  }

  lemma PushWeight(pending: seq<Task>, task: Task)
    requires ValidStack(pending) && ValidTask(task)
    ensures ValidStack(pending + [task])
    ensures StackWeight(pending + [task]) == TaskWeight(task) + StackWeight(pending)
  {
    assert (pending + [task])[..|pending|] == pending;
  }

  lemma FollowersLighter(rest: seq<Task>, task: Task)
    requires ValidStack(rest) && ValidTask(task)
    ensures ValidStack(rest + Followers(task))
    ensures StackWeight(rest + Followers(task)) < StackWeight(rest) + TaskWeight(task)
  {
    hide StackWeight;
    var fs := Followers(task);
    if |fs| == 2 {
      PushWeight(rest, fs[0]);
      PushWeight(rest + [fs[0]], fs[1]);
      assert rest + fs == rest + [fs[0]] + [fs[1]];
    } else {
      assert rest + fs == rest;
    }
  }

  // --- The machine ---

  /** Writes joined by `&&`; the tokens together count as one piece. */
  method WriteTokens(writer: BoundedWriter, tokens: seq<Token>) returns (ok: bool)
    requires writer.Valid() && FencedTokens(tokens)
    modifies writer
    ensures writer.Valid()
    ensures tokens != [] ==> writer.offered == old(writer.offered) + [TokensText(tokens)]
    ensures tokens == [] ==> writer.offered == old(writer.offered) && writer.overflow == old(writer.overflow)
    ensures ok == (tokens == [] || !writer.overflow)
  {
    hide Encode, EncodeAll, Join, TokensText, TokenText;
    ghost var before, pieces, done := writer.offered, [], [];
    ok := true;
    if tokens == [] {
      return;
    }
    NothingEscaped([], Mode.Json);
    TokensStart(tokens);
    for i := 0 to |tokens|
      invariant writer.Valid() && writer.offered == before + pieces
      invariant Renders(pieces, done) && Closed(done)
      invariant done + TokensText(tokens[i..]) == TokensText(tokens)
      invariant i > 0 ==> ok && !writer.overflow
    {
      ghost var text := TokenText(tokens[i]);
      TokensStep(tokens, i, done);
      RendersMore(pieces, done, text);
      ok := WriteToken(writer, tokens[i]);
      pieces, done := pieces + [text], done + text;
      if !ok {
        EncodeConcat(done, TokensText(tokens[i + 1..]));
        writer.Regroup(before, pieces, TokensText(tokens));
        return;
      }
    }
    TokensEnd(tokens, done);
    writer.Regroup(before, pieces, TokensText(tokens));
  }

  method WriteToken(writer: BoundedWriter, token: Token) returns (ok: bool)
    requires writer.Valid()
    modifies writer
    ensures writer.Valid() && writer.offered == old(writer.offered) + [TokenText(token)]
    ensures ok == !writer.overflow
  {
    hide Encode, EncodeAll, Join, Quoted;
    match token
    case Lit(text) => ok := writer.Write(text);
    case Quote(s) => ok := WriteJsonString(writer, s, ScriptJson);
  }

  lemma TokensStart(tokens: seq<Token>)
    ensures [] + TokensText(tokens[0..]) == TokensText(tokens)
  {
    assert tokens[0..] == tokens;
  }

  lemma TokensEnd(tokens: seq<Token>, done: Str)
    ensures done + TokensText(tokens[|tokens|..]) == done
  {
  }

  lemma TokensStep(tokens: seq<Token>, i: nat, done: Str)
    requires i < |tokens| && FencedTokens(tokens)
    ensures Fenced(TokenText(tokens[i]))
    ensures done + TokensText(tokens[i..]) == (done + TokenText(tokens[i])) + TokensText(tokens[i + 1..])
    ensures OpensPlain(TokensText(tokens[i + 1..]))
  {
    hide TokenText;
    assert tokens[i..][1..] == tokens[i + 1..];
    ConcatAssociates(done, TokenText(tokens[i]), TokensText(tokens[i + 1..]));
    TokensClosed(tokens[i + 1..]);
  }

  datatype RepairResult = Written(result: BoundedResult<Str>) | Unsupported

  const RECORD_HEAD := "{\"documentElement\":"

  /** The whole record, or its beginning up to a node it cannot hold. */
  function RecordOut(root: Node): Out {
    Then(Out(Ascii(RECORD_HEAD), true), Then(NodeOut(root), Out(Ascii("}"), true)))
  }

  /** The answer owed for an output: the limit comes before the unsupported node when
      the text in front of that node is already too wide. */
  function Owed(out: Out, maximumBytes: nat): RepairResult {
    if Utf8Length(out.text) > maximumBytes then Written(Limit(maximumBytes + 1))
    else if out.complete then Written(Ok(Utf8Length(out.text), out.text))
    else Unsupported
  }

  /** `done` followed by what the stack leaves to do is the whole record. */
  ghost predicate Pending(root: Node, done: Str, pending: seq<Task>)
    requires ValidStack(pending)
  {
    RecordOut(root) == Then(Out(done, true), Then(Remaining(pending), Out(Ascii("}"), true)))
  }

  lemma RecordStart(root: Node)
    ensures Pending(root, Ascii(RECORD_HEAD), [NodeTask(root)])
    ensures Renders([Ascii(RECORD_HEAD)], Ascii(RECORD_HEAD)) && Closed(Ascii(RECORD_HEAD))
    ensures Fits([NodeTask(root)], 2 * Levels(root)) && Levels(root) >= 1
  {
    hide NodeOut, Encode, EncodeAll;
    var head: Str := Ascii(RECORD_HEAD);
    assert |RECORD_HEAD| > 0 && RECORD_HEAD[|RECORD_HEAD| - 1] == ':';
    PushTask([], NodeTask(root));
    assert [] + [NodeTask(root)] == [NodeTask(root)];
    assert Remaining([]) == Out([], true);
    assert NodeOut(root).text + [] == NodeOut(root).text;
    SinglePiece(head);
    AppendPiece([], head);
    assert [] + [head] == [head] && [] + head == head;
  }

  lemma RecordEnd(root: Node, done: Str)
    requires Pending(root, done, [])
    ensures RecordOut(root) == Out(done + Ascii("}"), true)
  {
    hide NodeOut;
    assert [] + Ascii("}") == Ascii("}");
  }

  lemma PopTask(pending: seq<Task>, bound: nat)
    requires pending != [] && ValidStack(pending) && Fits(pending, bound)
    ensures var task, rest := pending[|pending| - 1], pending[..|pending| - 1];
      && ValidStack(rest) && ValidTask(task) && Fits(rest, bound)
      && |rest| + Room(task) <= bound && |pending| <= bound
      && Remaining(pending) == Then(TaskOut(task), Remaining(rest))
      && StackWeight(pending) == TaskWeight(task) + StackWeight(rest)
  {
  }

  lemma StuckHere(root: Node, done: Str, pending: seq<Task>)
    requires pending != [] && ValidStack(pending) && Pending(root, done, pending)
    requires Stuck(pending[|pending| - 1])
    ensures RecordOut(root) == Out(done, false)
  {
    StuckOut(pending[|pending| - 1]);
    assert done + [] == done;
  }

  lemma PendingStep(root: Node, done: Str, pending: seq<Task>)
    requires pending != [] && ValidStack(pending) && Pending(root, done, pending)
    requires var task := pending[|pending| - 1]; !Stuck(task)
    ensures var task, rest := pending[|pending| - 1], pending[..|pending| - 1];
      && ValidStack(rest + Followers(task))
      && Pending(root, done + TokensText(TaskTokens(task)), rest + Followers(task))
  {
    hide TokensText, TaskTokens, Followers, TaskOut, RecordOut;
    var task, rest := pending[|pending| - 1], pending[..|pending| - 1];
    TaskUnfolds(rest, task);
    var here := Out(TokensText(TaskTokens(task)), true);
    var last := Out(Ascii("}"), true);
    var next := rest + Followers(task);
    ThenAssociates(here, Remaining(next), last);
    ThenAssociates(Out(done, true), here, Then(Remaining(next), last));
  }

  lemma TooWide(root: Node, done: Str, pending: seq<Task>, pieces: seq<Str>, maximumBytes: nat)
    requires ValidStack(pending) && Pending(root, done, pending)
    requires Renders(pieces, done) && Closed(done) && TotalWidth(pieces) > maximumBytes
    ensures Owed(RecordOut(root), maximumBytes) == Written(Limit(maximumBytes + 1))
  {
    hide Remaining, RecordOut, Encode, EncodeAll, Join;
    RemainingOpensPlain(pending);
    var more := Then(Remaining(pending), Out(Ascii("}"), true));
    assert OpensPlain(more.text);
    EncodeConcat(done, more.text);
  }

  method SerializeRepairDataBounded(root: Node, maximumBytes: nat) returns (r: RepairResult, ghost peak: nat)
    requires root.Element? && maximumBytes <= MAX_SAFE_INTEGER
    ensures r == Owed(RecordOut(root), maximumBytes)
    ensures peak <= 2 * (Depth(root) + 1)
  {
    hide Encode, EncodeAll, Join, Remaining, TokensText, NodeOut, TaskTokens, Followers, StackWeight, TaskWeight, Room, Levels;
    var writer := new BoundedWriter(maximumBytes);
    var pending := [NodeTask(root)];
    peak := 1;
    ghost var done := Ascii(RECORD_HEAD);
    RecordStart(root);
    var ok := writer.Write(Ascii(RECORD_HEAD));
    ghost var pieces := [Ascii(RECORD_HEAD)];
    assert writer.offered == pieces;
    if !ok {
      TooWide(root, done, pending, pieces, maximumBytes);
      var result := writer.ResultString();
      return Written(result), peak;
    }
    while pending != []
      invariant writer.Valid() && fresh(writer) && writer.maximumBytes == maximumBytes
      invariant writer.offered == pieces && !writer.overflow
      invariant Renders(pieces, done) && Closed(done)
      invariant ValidStack(pending) && Fits(pending, 2 * Levels(root)) && peak <= 2 * Levels(root)
      invariant Pending(root, done, pending)
      decreases StackWeight(pending)
    {
      peak := Max(peak, |pending|);
      var task := pending[|pending| - 1];
      var rest := pending[..|pending| - 1];
      PopTask(pending, 2 * Levels(root));
      if Stuck(task) {
        StuckHere(root, done, pending);
        return Unsupported, peak;
      }
      TaskUnfolds(rest, task);
      FollowersFit(rest, task, 2 * Levels(root));
      FollowersLighter(rest, task);
      TaskFenced(task);
      TokensClosed(TaskTokens(task));
      NoTokens();
      ghost var text := TokensText(TaskTokens(task));
      PendingStep(root, done, pending);
      ok := WriteTokens(writer, TaskTokens(task));
      if TaskTokens(task) != [] {
        RendersMore(pieces, done, text);
        pieces := pieces + [text];
      } else {
        assert done + text == done;
      }
      done := done + text;
      pending := rest + Followers(task);
      peak := Max(peak, |pending|);
      if !ok {
        TooWide(root, done, pending, pieces, maximumBytes);
        break;
      }
    }
    ghost var last: Str := Ascii("}");
    if ok {
      RecordEnd(root, done);
      RendersMore(pieces, done, last);
    }
    AppendPiece(pieces, last);
    var ignored := writer.Write(Ascii("}"));
    var result := writer.ResultString();
    r := Written(result);
  }
}
