/** Reading serialized HTML back: tags, quoted attributes, comments, raw text and void
    elements. */
module HtmlReader {
  import opened Text
  import opened Writer
  import opened Escape
  import opened Dom
  import opened Html
  import RepairData
  import RepairDocument

  // --- Scanning ---

  /** A unit that can be part of a name: no white space, quote, slash, bracket or equals sign. */
  predicate NameUnit(u: CodeUnit) {
    u != 9 && u != 10 && u != 12 && u != 13 && u != 32 && u != 34 && u != 47 && u != 60 && u != 61 && u != 62
  }

  predicate IsName(s: Str) {
    s != [] && forall i :: 0 <= i < |s| ==> NameUnit(s[i])
  }

  function NameLength(s: Str): (n: nat)
    ensures n <= |s|
  {
    if s == [] || !NameUnit(s[0]) then 0 else 1 + NameLength(s[1..])
  }

  /** The position of the first `u`, or the length if there is none. */
  function First(s: Str, u: CodeUnit): (n: nat)
    ensures n <= |s|
  {
    if s == [] || s[0] == u then 0 else 1 + First(s[1..], u)
  }

  /** The first position at which `pattern` starts. */
  function Find(s: Str, pattern: Str): (r: Option<nat>)
    ensures r.Some? ==> r.value + |pattern| <= |s|
  {
    if StartsWith(s, pattern) then Some(0)
    else if s == [] then None
    else
      match Find(s[1..], pattern)
      case None => None
      case Some(k) => Some(k + 1)
  }

  lemma {:induction false} NameEnds(name: Str, rest: Str)
    requires forall i :: 0 <= i < |name| ==> NameUnit(name[i])
    requires rest == [] || !NameUnit(rest[0])
    ensures NameLength(name + rest) == |name|
  {
    if name == [] {
      assert name + rest == rest;
    } else {
      NameEnds(name[1..], rest);
      assert (name + rest)[1..] == name[1..] + rest;
    }
  }

  lemma {:induction false} FirstAfter(s: Str, u: CodeUnit, rest: Str)
    requires u !in s && (rest == [] || rest[0] == u)
    ensures First(s + rest, u) == |s|
  {
    if s == [] {
      assert s + rest == rest;
    } else {
      FirstAfter(s[1..], u, rest);
      assert (s + rest)[1..] == s[1..] + rest;
    }
  }

  /** `pattern` starts nowhere in front of position `n`. */
  ghost predicate NotBefore(s: Str, pattern: Str, n: nat) {
    forall i :: 0 <= i < n && i <= |s| ==> !StartsWith(s[i..], pattern)
  }

  lemma {:induction false} FindAt(s: Str, pattern: Str, n: nat)
    requires n <= |s| && NotBefore(s, pattern, n) && StartsWith(s[n..], pattern)
    ensures Find(s, pattern) == Some(n)
    decreases n
  {
    assert s[0..] == s;
    if n > 0 {
      assert !StartsWith(s[0..], pattern);
      forall i | 0 <= i < n - 1 && i <= |s[1..]|
        ensures !StartsWith(s[1..][i..], pattern)
      {
        assert s[1..][i..] == s[i + 1..];
      }
      assert s[1..][n - 1..] == s[n..];
      FindAt(s[1..], pattern, n - 1);
    }
  }

  /** `pattern` occurs nowhere in `s`. */
  ghost predicate Absent(s: Str, pattern: Str) {
    forall i :: 0 <= i <= |s| ==> !StartsWith(s[i..], pattern)
  }

  lemma Differs(s: Str, pattern: Str, k: nat)
    requires k < |pattern| && (k < |s| ==> s[k] != pattern[k])
    ensures !StartsWith(s, pattern)
  {
    if |pattern| <= |s| {
      assert s[..|pattern|][k] == s[k];
    }
  }

  lemma SameStart(s: Str, rest: Str, pattern: Str)
    requires |pattern| <= |s|
    ensures StartsWith(s + rest, pattern) <==> StartsWith(s, pattern)
  {
    assert (s + rest)[..|pattern|] == s[..|pattern|];
  }

  /** A pattern that starts with a unit it has nowhere else is found right after a text it
      does not occur in. */
  lemma FindAfter(s: Str, pattern: Str, rest: Str)
    requires Absent(s, pattern) && pattern != [] && pattern[0] !in pattern[1..]
    ensures Find(s + pattern + rest, pattern) == Some(|s|)
  {
    var all := s + pattern + rest;
    assert all[|s|..][..|pattern|] == pattern;
    forall i | 0 <= i < |s|
      ensures !StartsWith(all[i..], pattern)
    {
      var k := |s| - i;
      if k < |pattern| {
        assert pattern[1..][k - 1] == pattern[k];
        Differs(all[i..], pattern, k);
      } else {
        assert all[i..] == s[i..] + (pattern + rest);
        SameStart(s[i..], pattern + rest, pattern);
      }
    }
    FindAt(all, pattern, |s|);
  }

  const COMMENT_END: Str := Ascii("-->")

  lemma CommentEnds(s: Str, rest: Str)
    requires Absent(s, COMMENT_END)
    ensures Find(s + COMMENT_END + rest, COMMENT_END) == Some(|s|)
  {
    var all := s + COMMENT_END + rest;
    assert COMMENT_END == [45, 45, 62];
    assert all[|s|..][..3] == COMMENT_END;
    forall i | 0 <= i < |s|
      ensures !StartsWith(all[i..], COMMENT_END)
    {
      if |s| - i < 3 {
        assert all[i..][2] == 45;
        Differs(all[i..], COMMENT_END, 2);
      } else {
        assert all[i..] == s[i..] + (COMMENT_END + rest);
        SameStart(s[i..], COMMENT_END + rest, COMMENT_END);
      }
    }
    FindAt(all, COMMENT_END, |s|);
  }

  // --- The reader ---

  datatype Read<T> = Read(value: T, rest: Str) | Bad

  function ReadName(s: Str): (r: Read<Str>)
    ensures r.Read? ==> |r.rest| < |s|
  {
    var n := NameLength(s);
    if n == 0 then Bad else Read(s[..n], s[n..])
  }

  /** A quoted value after its equals sign. */
  function ReadQuoted(s: Str): (r: Read<Str>)
    ensures r.Read? ==> |r.rest| < |s|
  {
    if !StartsWith(s, [61, 34]) then Bad
    else
      var quoted := s[2..];
      var n := First(quoted, 34);
      if n == |quoted| then Bad else Read(Unescape(quoted[..n]), quoted[n + 1..])
  }

  function ReadAttribute(s: Str): (r: Read<Attr>)
    ensures r.Read? ==> |r.rest| < |s|
  {
    match ReadName(s)
    case Bad => Bad
    case Read(name, rest) =>
      match ReadQuoted(rest)
      case Bad => Bad
      case Read(value, after) => Read(Attr(name, value), after)
  }

  /** Attributes up to and including the bracket that ends the tag. */
  function ReadAttributes(s: Str): (r: Read<seq<Attr>>)
    ensures r.Read? ==> |r.rest| < |s|
    decreases |s|
  {
    if s != [] && s[0] == 62 then Read([], s[1..])
    else if s == [] || s[0] != 32 then Bad
    else
      match ReadAttribute(s[1..])
      case Bad => Bad
      case Read(attr, rest) =>
        match ReadAttributes(rest)
        case Bad => Bad
        case Read(more, after) => Read([attr] + more, after)
  }

  function Built(name: Str, attrs: seq<Attr>, inside: seq<Node>): Node {
    if name == TEMPLATE then Element(Some(HTML_NAMESPACE), name, attrs, [], inside, NoShadow)
    else Element(Some(HTML_NAMESPACE), name, attrs, inside, [], NoShadow)
  }

  /** Raw text up to the end tag of its element. */
  function ReadRaw(s: Str, name: Str): (r: Read<seq<Node>>)
    ensures r.Read? ==> |r.rest| < |s|
  {
    match Find(s, [60, 47] + name)
    case None => Bad
    case Some(n) =>
      var after := s[n + 2 + |name|..];
      if after == [] || after[0] != 62 then Bad
      else Read(if n == 0 then [] else [TextNode(s[..n])], after[1..])
  }

  /** An element after its first bracket. */
  function ReadElement(s: Str): (r: Read<Node>)
    ensures r.Read? ==> |r.rest| < |s|
    decreases |s|, 0
  {
    match ReadName(s)
    case Bad => Bad
    case Read(name, tag) =>
      match ReadAttributes(tag)
      case Bad => Bad
      case Read(attrs, body) =>
        if name in VOID_ELEMENTS then Read(Built(name, attrs, []), body)
        else if name in RAW_TEXT_ELEMENTS then
          match ReadRaw(body, name)
          case Bad => Bad
          case Read(inside, rest) => Read(Built(name, attrs, inside), rest)
        else
          match ReadNodes(body)
          case Bad => Bad
          case Read(inside, end) =>
            if StartsWith(end, ClosePiece(name)) then Read(Built(name, attrs, inside), end[|name| + 3..]) else Bad
  }

  function ReadNode(s: Str): (r: Read<Node>)
    requires s != []
    ensures r.Read? ==> |r.rest| < |s|
    decreases |s|, 1
  {
    if StartsWith(s, Ascii("<!--")) then
      match Find(s[4..], COMMENT_END)
      case None => Bad
      case Some(n) => Read(Comment(s[4..][..n]), s[4..][n + 3..])
    else if s[0] == 60 then ReadElement(s[1..])
    else
      var n := First(s, 60);
      Read(TextNode(Unescape(s[..n])), s[n..])
  }

  /** Nodes up to the end or the next end tag. */
  function ReadNodes(s: Str): (r: Read<seq<Node>>)
    ensures r.Read? ==> |r.rest| <= |s|
    decreases |s|, 2
  {
    if s == [] || StartsWith(s, [60, 47]) then Read([], s)
    else
      match ReadNode(s)
      case Bad => Bad
      case Read(node, rest) =>
        match ReadNodes(rest)
        case Bad => Bad
        case Read(more, end) => Read([node] + more, end)
  }

  // --- What text can hold ---

  /** What is left of a tree in its text: no namespaces, no shadow roots, no children of
      void elements, and of a template only its content. */
  function Plain(node: Node): Node {
    if !node.Element? then node
    else if IsVoid(node) then Built(node.name, node.attrs, [])
    else Built(node.name, node.attrs, if IsTemplate(node) then PlainAll(node.content) else PlainAll(node.children))
  }

  function PlainAll(nodes: seq<Node>): seq<Node> {
    if nodes == [] then [] else [Plain(nodes[0])] + PlainAll(nodes[1..])
  }

  /** A name that means something else outside the HTML namespace. */
  predicate Special(name: Str) {
    name in VOID_ELEMENTS || name in RAW_TEXT_ELEMENTS || name == TEMPLATE
  }

  predicate ReadableAttributes(attrs: seq<Attr>) {
    forall i :: 0 <= i < |attrs| ==> IsName(attrs[i].name)
  }

  /** The text of the node means the node: names are made of name units, text is not
      empty, a comment does not hold its end, raw text is one text without the start of
      its end tag, and no two texts are neighbours. */
  ghost predicate Readable(node: Node) {
    match node
    case TextNode(value) => value != []
    case Comment(value) => Absent(value, COMMENT_END)
    case Element(_, name, attrs, children, content, _) =>
      && IsName(name) && name[0] != 33 && ReadableAttributes(attrs)
      && (!IsHtml(node) ==> !Special(name))
      && (IsVoid(node)
          || (if IsRawText(node) then
                children == [] || (|children| == 1 && children[0].TextNode? && children[0].value != []
                                   && Absent(children[0].value, [60, 47] + name))
              else if IsTemplate(node) then AllReadable(content)
              else AllReadable(children)))
    case _ => false
  }

  ghost predicate AllReadable(nodes: seq<Node>) {
    nodes == [] || (Readable(nodes[0]) && AllReadable(nodes[1..])
                    && (|nodes| > 1 ==> !(nodes[0].TextNode? && nodes[1].TextNode?)))
  }

  // --- The text of a tree ---

  function AttributesText(attrs: seq<Attr>): Str {
    if attrs == [] then [62]
    else [32] + attrs[0].name + [61, 34] + Escaped(attrs[0].value, Attribute) + [34] + AttributesText(attrs[1..])
  }

  lemma JoinOne(a: Str)
    ensures Join([a]) == a
  {
    assert [a][..0] == [];
  }

  lemma JoinTriple(a: Str, b: Str, c: Str)
    ensures Join([a, b, c]) == a + b + c
  {
    assert [a, b, c][..2] == [a, b] && [a, b][..1] == [a];
    JoinOne(a);
  }

  lemma {:induction false} AttributePiecesText(attrs: seq<Attr>)
    ensures Join(AttributePieces(attrs) + [[62]]) == AttributesText(attrs)
  {
    hide Escaped, Join;
    if attrs == [] {
      assert AttributePieces(attrs) + [[62]] == [[62]];
      JoinOne([62]);
    } else {
      var head, tail := AttributeTriple(attrs[0]), AttributePieces(attrs[1..]) + [[62]];
      assert AttributePieces(attrs) + [[62]] == head + tail;
      JoinConcat(head, tail);
      AttributePiecesText(attrs[1..]);
      JoinTriple([32] + attrs[0].name + [61, 34], Escaped(attrs[0].value, Attribute), [34]);
    }
  }

  lemma OpenText(name: Str, attrs: seq<Attr>)
    ensures Join(OpenPieces(name, attrs)) == [60] + (name + AttributesText(attrs))
  {
    hide AttributesText, AttributePieces, Join;
    var tail := AttributePieces(attrs) + [[62]];
    assert OpenPieces(name, attrs) == [[60] + name] + tail;
    JoinConcat([[60] + name], tail);
    JoinOne([60] + name);
    AttributePiecesText(attrs);
  }

  /** What an element that is not void prints between its tags. */
  function Inside(node: Node): seq<Str>
    requires node.Element?
  {
    ChildrenPieces(if IsTemplate(node) then node.content else node.children, IsRawText(node))
  }

  lemma ElementText(node: Node)
    requires node.Element?
    ensures Join(Pieces(node, false)) ==
      [60] + (node.name + (AttributesText(node.attrs) + if IsVoid(node) then [] else Join(Inside(node)) + ClosePiece(node.name)))
  {
    hide AttributesText, OpenPieces, ChildrenPieces, Join, ClosePiece;
    OpenText(node.name, node.attrs);
    if IsVoid(node) {
      assert Pieces(node, false) == OpenPieces(node.name, node.attrs);
    } else {
      var inner := Inside(node) + [ClosePiece(node.name)];
      assert Pieces(node, false) == OpenPieces(node.name, node.attrs) + inner;
      JoinConcat(OpenPieces(node.name, node.attrs), inner);
      JoinConcat(Inside(node), [ClosePiece(node.name)]);
      JoinOne(ClosePiece(node.name));
    }
  }

  lemma ForestText(nodes: seq<Node>)
    ensures nodes == [] ==> Join(ChildrenPieces(nodes, false)) == []
    ensures nodes != [] ==>
      Join(ChildrenPieces(nodes, false)) == Join(Pieces(nodes[0], false)) + Join(ChildrenPieces(nodes[1..], false))
  {
    hide Pieces;
    if nodes != [] {
      JoinConcat(Pieces(nodes[0], false), ChildrenPieces(nodes[1..], false));
    }
  }

  /** The text of a readable node is not empty and starts no end tag; only a text node's
      text does not start with a bracket. */
  lemma NodeOpens(node: Node)
    requires Readable(node)
    ensures var s := Join(Pieces(node, false));
      && s != [] && !StartsWith(s, [60, 47])
      && (node.TextNode? ==> 60 !in s) && (!node.TextNode? ==> s[0] == 60)
      && (node.Element? ==> !StartsWith(s, Ascii("<!--")))
      && (!node.TextNode? ==> |s| > 1 && s[1] != 47)
  {
    hide Escaped, Join, AllReadable, Absent;
    match node
    case TextNode(value) =>
      JoinOne(Escaped(value, Escape.Plain));
      HtmlRoundTrip(value, Escape.Plain);
      NotEmptied(value);
      Differs(Join(Pieces(node, false)), [60, 47], 0);
    case Comment(value) =>
      JoinTriple(Ascii("<!--"), value, COMMENT_END);
      Differs(Join(Pieces(node, false)), [60, 47], 1);
    case Element(_, name, attrs, _, _, _) =>
      ElementText(node);
      var s := Join(Pieces(node, false));
      assert s[1] == name[0];
      Differs(s, [60, 47], 1);
      Differs(s, Ascii("<!--"), 1);
  }

  lemma NotEmptied(value: Str)
    requires value != []
    ensures Escaped(value, Escape.Plain) != []
  {
  }

  // --- Reading back ---

  lemma QuotedReadsBack(value: Str, more: Str)
    requires 34 !in value
    ensures ReadQuoted([61, 34] + (value + ([34] + more))) == Read(Unescape(value), more)
  {
    hide Unescape, First;
    var quoted := value + ([34] + more);
    assert ([61, 34] + quoted)[..2] == [61, 34] && ([61, 34] + quoted)[2..] == quoted;
    FirstAfter(value, 34, [34] + more);
    assert quoted[..|value|] == value && quoted[|value| + 1..] == more;
  }

  lemma NameReadsBack(name: Str, tail: Str)
    requires IsName(name) && tail != [] && !NameUnit(tail[0])
    ensures ReadName(name + tail) == Read(name, tail)
  {
    hide NameLength;
    NameEnds(name, tail);
    assert (name + tail)[..|name|] == name && (name + tail)[|name|..] == tail;
  }

  /** One attribute in front of more text. */
  lemma AttributeReadsBack(name: Str, value: Str, more: Str)
    requires IsName(name) && 34 !in value
    ensures ReadAttributes([32] + (name + ([61, 34] + (value + ([34] + more))))) ==
      match ReadAttributes(more)
      case Bad => Bad
      case Read(attrs, after) => Read([Attr(name, Unescape(value))] + attrs, after)
  {
    hide Unescape, ReadName, ReadQuoted, IsName;
    var tail := [61, 34] + (value + ([34] + more));
    NameReadsBack(name, tail);
    QuotedReadsBack(value, more);
    assert ([32] + (name + tail))[1..] == name + tail;
  }

  lemma AttributesStep(attrs: seq<Attr>, rest: Str)
    requires attrs != []
    ensures AttributesText(attrs) + rest ==
      [32] + (attrs[0].name + ([61, 34] + (Escaped(attrs[0].value, Attribute) + ([34] + (AttributesText(attrs[1..]) + rest)))))
  {
    hide Escaped;
  }

  lemma {:induction false} AttributesReadBack(attrs: seq<Attr>, rest: Str)
    requires ReadableAttributes(attrs)
    ensures ReadAttributes(AttributesText(attrs) + rest) == Read(attrs, rest)
  {
    hide Escaped, Unescape, First, NameLength;
    if attrs == [] {
      assert ([62] + rest)[1..] == rest;
    } else {
      hide AttributesText, ReadAttributes;
      HtmlRoundTrip(attrs[0].value, Attribute);
      assert IsName(attrs[0].name);
      AttributesStep(attrs, rest);
      AttributeReadsBack(attrs[0].name, Escaped(attrs[0].value, Attribute), AttributesText(attrs[1..]) + rest);
      AttributesReadBack(attrs[1..], rest);
      assert attrs == [Attr(attrs[0].name, attrs[0].value)] + attrs[1..];
    }
  }

  lemma RawEnds(text: Str, name: Str, rest: Str)
    requires IsName(name) && Absent(text, [60, 47] + name)
    ensures ReadRaw(text + ClosePiece(name) + rest, name) == Read(if text == [] then [] else [TextNode(text)], rest)
  {
    hide Absent, Find;
    var end := [60, 47] + name;
    assert end[1..] == [47] + name;
    FindAfter(text, end, [62] + rest);
    var s := text + end + ([62] + rest);
    assert text + ClosePiece(name) + rest == s;
    assert s[|text| + 2 + |name|..] == [62] + rest && ([62] + rest)[1..] == rest && s[..|text|] == text;
  }

  lemma RawReadsBack(node: Node, rest: Str)
    requires node.Element? && Readable(node) && IsRawText(node) && !IsVoid(node)
    ensures ReadRaw(Join(Inside(node)) + ClosePiece(node.name) + rest, node.name) == Read(PlainAll(node.children), rest)
  {
    hide Join, Inside, ReadRaw, ClosePiece;
    var text := if node.children == [] then [] else node.children[0].value;
    RawText(node);
    NothingAbsent([60, 47] + node.name);
    RawEnds(text, node.name, rest);
    if node.children != [] {
      assert node.children[1..] == [] && node.children[0] == TextNode(text) && text != [];
      assert PlainAll([]) == [];
      assert PlainAll(node.children) == [Plain(node.children[0])] + PlainAll(node.children[1..]);
      assert PlainAll(node.children) == [TextNode(text)];
    }
  }

  lemma NothingAbsent(pattern: Str)
    requires pattern != []
    ensures Absent([], pattern)
  {
  }

  lemma RawText(node: Node)
    requires node.Element? && Readable(node) && IsRawText(node) && !IsVoid(node)
    ensures Join(Inside(node)) == if node.children == [] then [] else node.children[0].value
  {
    TemplateIsNotVoid();
    if node.children != [] {
      var value := node.children[0].value;
      assert node.children[1..] == [];
      assert node.children[0] == TextNode(value) && Pieces(node.children[0], true) == [Escaped(value, Raw)];
      assert ChildrenPieces(node.children, true) == [Escaped(value, Raw)] + ChildrenPieces([], true);
      assert Inside(node) == [Escaped(value, Raw)];
      JoinOne(Escaped(value, Raw));
      EscapedPlain(value, Raw);
    }
  }

  /** The start tag of an element, and what follows decides the rest. */
  lemma TagReadsBack(name: Str, attrs: seq<Attr>, body: Str)
    requires IsName(name) && ReadableAttributes(attrs)
    ensures ReadName(name + (AttributesText(attrs) + body)) == Read(name, AttributesText(attrs) + body)
    ensures ReadAttributes(AttributesText(attrs) + body) == Read(attrs, body)
  {
    hide AttributesText, ReadAttributes, ReadName, IsName;
    AttributesOpen(attrs);
    NameReadsBack(name, AttributesText(attrs) + body);
    AttributesReadBack(attrs, body);
  }

  /** What an element prints after its start tag. */
  function Body(node: Node): Str
    requires node.Element?
  {
    if IsVoid(node) then [] else Join(Inside(node)) + ClosePiece(node.name)
  }

  lemma AfterBracket(tail: Str)
    requires !StartsWith([60] + tail, Ascii("<!--"))
    ensures ReadNode([60] + tail) == ReadElement(tail)
  {
    hide ReadElement, Find;
    assert ([60] + tail)[1..] == tail;
  }

  lemma Opened(node: Node, rest: Str)
    requires node.Element? && Readable(node)
    ensures Join(Pieces(node, false)) + rest == [60] + (node.name + (AttributesText(node.attrs) + (Body(node) + rest)))
    ensures Join(Pieces(node, false)) != []
    ensures ReadNode(Join(Pieces(node, false)) + rest) == ReadElement(node.name + (AttributesText(node.attrs) + (Body(node) + rest)))
  {
    hide Join, AllReadable, AttributesText, Absent, Pieces, Inside, ReadElement, ReadNode, ReadNodes, ClosePiece, Find;
    ElementText(node);
    StillNoComment(node, rest);
    var name, attrs, body := node.name, AttributesText(node.attrs), Body(node);
    ConcatAssociates([60], name + (attrs + body), rest);
    ConcatAssociates(name, attrs + body, rest);
    ConcatAssociates(attrs, body, rest);
    AfterBracket(name + (attrs + (body + rest)));
  }

  lemma {:induction false} ElementReadsBack(node: Node, rest: Str)
    requires node.Element? && Readable(node)
    ensures Join(Pieces(node, false)) != []
    ensures ReadNode(Join(Pieces(node, false)) + rest) == Read(Plain(node), rest)
    decreases node, 2
  {
    hide Join, AllReadable, PlainAll, ReadNodes, ReadNode, ReadName, ReadAttributes, ReadRaw, AttributesText, Absent, Pieces, Inside;
    var name := node.name;
    Opened(node, rest);
    TagReadsBack(name, node.attrs, Body(node) + rest);
    if IsVoid(node) {
      assert Body(node) + rest == rest;
    } else if IsRawText(node) {
      RawReadsBack(node, rest);
    } else {
      var end := ClosePiece(name) + rest;
      assert Body(node) + rest == Join(Inside(node)) + end;
      Closing(name, rest);
      InsideReadsBack(node, end);
    }
  }

  lemma Closing(name: Str, rest: Str)
    ensures var end := ClosePiece(name) + rest;
      StartsWith(end, ClosePiece(name)) && end[|name| + 3..] == rest && StartsWith(end, [60, 47])
  {
    var end := ClosePiece(name) + rest;
    assert end[..2] == [60, 47] && end[..|name| + 3] == ClosePiece(name);
  }

  lemma {:induction false} InsideReadsBack(node: Node, end: Str)
    requires node.Element? && Readable(node) && !IsVoid(node) && !IsRawText(node) && StartsWith(end, [60, 47])
    ensures ReadNodes(Join(Inside(node)) + end) == Read(PlainAll(if IsTemplate(node) then node.content else node.children), end)
    decreases node, 1
  {
    hide Join, PlainAll, ReadNodes, ChildrenPieces, AllReadable;
    if IsTemplate(node) {
      ForestReadsBack(node.content, end);
    } else {
      ForestReadsBack(node.children, end);
    }
  }

  lemma AttributesOpen(attrs: seq<Attr>)
    ensures AttributesText(attrs) != [] && !NameUnit(AttributesText(attrs)[0])
  {
  }

  lemma StillNoComment(node: Node, rest: Str)
    requires node.Element? && Readable(node)
    ensures !StartsWith(Join(Pieces(node, false)) + rest, Ascii("<!--"))
  {
    hide Join, AllReadable, AttributesText, Absent, Pieces;
    ElementText(node);
    var s := Join(Pieces(node, false)) + rest;
    assert s[1] == node.name[0];
    Differs(s, Ascii("<!--"), 1);
  }

  lemma TextReadsBack(value: Str, rest: Str)
    requires value != [] && (rest == [] || rest[0] == 60)
    ensures Join(Pieces(TextNode(value), false)) != []
    ensures ReadNode(Join(Pieces(TextNode(value), false)) + rest) == Read(TextNode(value), rest)
  {
    hide Join, ReadElement, Unescape, Escaped, Find;
    var text := Escaped(value, Escape.Plain);
    JoinOne(text);
    NotEmptied(value);
    HtmlRoundTrip(value, Escape.Plain);
    FirstAfter(text, 60, rest);
    assert (text + rest)[0] == text[0];
    Differs(text + rest, Ascii("<!--"), 0);
    assert (text + rest)[..|text|] == text && (text + rest)[|text|..] == rest;
  }

  lemma CommentReadsBack(value: Str, rest: Str)
    requires Absent(value, COMMENT_END)
    ensures Join(Pieces(Comment(value), false)) != []
    ensures ReadNode(Join(Pieces(Comment(value), false)) + rest) == Read(Comment(value), rest)
  {
    hide Join, ReadElement, Unescape, Find, Absent;
    JoinTriple(Ascii("<!--"), value, COMMENT_END);
    var tail := value + COMMENT_END + rest;
    var s := Ascii("<!--") + tail;
    assert Join(Pieces(Comment(value), false)) + rest == s;
    assert s[..4] == Ascii("<!--") && s[4..] == tail;
    CommentEnds(value, rest);
    assert tail[..|value|] == value && tail[|value| + 3..] == rest;
  }

  lemma {:induction false} NodeReadsBack(node: Node, rest: Str)
    requires Readable(node) && (node.TextNode? ==> rest == [] || rest[0] == 60)
    ensures Join(Pieces(node, false)) != []
    ensures ReadNode(Join(Pieces(node, false)) + rest) == Read(Plain(node), rest)
    decreases node, 3
  {
    hide Join, AllReadable, PlainAll, ReadNode, Pieces, Absent;
    match node
    case TextNode(value) => TextReadsBack(value, rest);
    case Comment(value) => CommentReadsBack(value, rest);
    case Element(_, _, _, _, _, _) => ElementReadsBack(node, rest);
  }

  lemma {:induction false} ForestReadsBack(nodes: seq<Node>, rest: Str)
    requires AllReadable(nodes) && (rest == [] || StartsWith(rest, [60, 47]))
    ensures ReadNodes(Join(ChildrenPieces(nodes, false)) + rest) == Read(PlainAll(nodes), rest)
    decreases nodes, 0
  {
    hide Join, Readable, ReadNode, Pieces, ChildrenPieces;
    ForestText(nodes);
    if nodes == [] {
      assert [] + rest == rest;
    } else {
      var first, others := Join(Pieces(nodes[0], false)), Join(ChildrenPieces(nodes[1..], false)) + rest;
      var s := Join(ChildrenPieces(nodes, false)) + rest;
      assert s == first + others;
      ForestReadsBack(nodes[1..], rest);
      NodeOpens(nodes[0]);
      if nodes[0].TextNode? {
        ForestText(nodes[1..]);
        if |nodes| > 1 {
          assert nodes[1..][0] == nodes[1];
          NodeOpens(nodes[1]);
          assert others[0] == Join(Pieces(nodes[1], false))[0];
        }
        assert others == [] || others[0] == 60;
      }
      NodeReadsBack(nodes[0], others);
      Differs(s, [60, 47], if nodes[0].TextNode? then 0 else 1);
    }
  }

  /** The reader gives back, from the text of a tree whose text means it, all that the text
      can hold: every tag, attribute, text and comment in its place. */
  lemma DocumentReadsBack(root: Node, maximumBytes: nat)
    requires root.Element? && Readable(root) && Bounded(Pieces(root, false), maximumBytes).Ok?
    ensures var text := Bounded(Pieces(root, false), maximumBytes).value; text != [] && ReadNode(text) == Read(Plain(root), [])
  {
    hide Readable, Pieces, Join, ReadNode, Plain;
    NodeReadsBack(root, []);
    assert Join(Pieces(root, false)) + [] == Join(Pieces(root, false));
  }

  /** A tree that holds nothing but what its text can hold. */
  ghost predicate Ordinary(node: Node) {
    node.Element? ==>
      && IsHtml(node) && node.shadow.NoShadow?
      && if IsTemplate(node) then node.children == [] && AllOrdinary(node.content)
         else node.content == [] && (if IsVoid(node) then node.children == [] else AllOrdinary(node.children))
  }

  ghost predicate AllOrdinary(nodes: seq<Node>) {
    nodes == [] || (Ordinary(nodes[0]) && AllOrdinary(nodes[1..]))
  }

  lemma TemplateIsNotVoid()
    ensures TEMPLATE !in VOID_ELEMENTS && TEMPLATE !in RAW_TEXT_ELEMENTS
  {
    assert TEMPLATE[0] == 116 && Ascii("basefont")[0] == 98 && Ascii("noframes")[0] == 110;
  }

  lemma {:induction false} OrdinaryIsPlain(node: Node)
    requires Ordinary(node)
    ensures Plain(node) == node
  {
    if node.Element? {
      TemplateIsNotVoid();
      if IsTemplate(node) {
        AllOrdinaryArePlain(node.content);
      } else if !IsVoid(node) {
        AllOrdinaryArePlain(node.children);
      }
    }
  }

  lemma {:induction false} AllOrdinaryArePlain(nodes: seq<Node>)
    requires AllOrdinary(nodes)
    ensures PlainAll(nodes) == nodes
  {
    hide Ordinary, Plain;
    if nodes != [] {
      OrdinaryIsPlain(nodes[0]);
      AllOrdinaryArePlain(nodes[1..]);
    }
  }

  /** Two ordinary trees with the same text are the same tree. */
  lemma TextDeterminesTree(a: Node, b: Node)
    requires a.Element? && b.Element? && Readable(a) && Readable(b) && Ordinary(a) && Ordinary(b)
    requires Join(Pieces(a, false)) == Join(Pieces(b, false))
    ensures a == b
  {
    hide Readable, Pieces, Join, ReadNode, Plain, Ordinary;
    NodeReadsBack(a, []);
    NodeReadsBack(b, []);
    OrdinaryIsPlain(a);
    OrdinaryIsPlain(b);
  }

  /** Whatever it holds, ordinary text and every attribute value is recovered by replacing
      the character references, and neither can be taken for a tag or end early; raw text
      stands as it is. */
  lemma ValuesAreRecovered(value: Str, attr: Attr)
    ensures var text := Join(Pieces(TextNode(value), false)); Unescape(text) == value && 60 !in text
    ensures var text := AttributeTriple(attr)[1]; Unescape(text) == attr.value && 60 !in text && 34 !in text
    ensures Join(Pieces(TextNode(value), true)) == value
  {
    hide Unescape, Escaped, Join;
    JoinOne(Escaped(value, Escape.Plain));
    JoinOne(Escaped(value, Raw));
    HtmlRoundTrip(value, Escape.Plain);
    HtmlRoundTrip(attr.value, Attribute);
    EscapedPlain(value, Raw);
  }

  /** A parser that reads as above. */
  function Reparse(text: Str): Option<Node> {
    if text == [] then None
    else
      match ReadNode(text)
      case Bad => None
      case Read(node, rest) => if rest == [] then Some(node) else None
  }

  /** A tree that its text holds completely needs no repair record. */
  lemma OrdinaryNeedsNoRepair(root: Node)
    requires root.Element? && Readable(root) && Ordinary(root) && RepairData.Supported(root)
    ensures !RepairDocument.NeedsRepair(root, Join(Pieces(root, false)), Reparse)
  {
    hide Readable, Pieces, Join, ReadNode, Plain, Ordinary, RepairData.Supported, RepairDocument.Sign;
    NodeReadsBack(root, []);
    assert Join(Pieces(root, false)) + [] == Join(Pieces(root, false));
    OrdinaryIsPlain(root);
  }
}
