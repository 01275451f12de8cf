/**
 How far the bytes counted for HTML exceed the UTF-8 length of the text: two for every
 surrogate pair whose halves end up in neighbouring siblings, and nothing else.
 */
module HtmlBytes {
  import opened Text
  import opened Writer
  import opened Escape
  import opened Dom
  import opened Html

  function One(b: bool): nat {
    if b then 1 else 0
  }

  lemma {:induction false} SplitPairsConcat(p: seq<Str>, q: seq<Str>)
    ensures SplitPairs(p + q) == SplitPairs(p) + SplitPairs(q) + One(Splits(Join(p), Join(q)))
    decreases |q|
  {
    if q == [] {
      assert p + q == p;
    } else {
      var front, last := q[..|q| - 1], q[|q| - 1];
      SplitPairsConcat(p, front);
      JoinConcat(p, front);
      assert (p + q)[..|p + q| - 1] == p + front;
      Boundary(Join(p), Join(front), last);
    }
  }

  /** A boundary with text in front of it is that text's own. */
  lemma Boundary(a: Str, b: Str, c: Str)
    ensures One(Splits(a, b)) + One(Splits(a + b, c)) == One(Splits(b, c)) + One(Splits(a, b + c))
  {
    if b == [] {
      assert a + b == a && b + c == c;
    }
  }

  // --- Pairs shared by siblings ---

  /** A node that prints its value, escaped or not. */
  predicate TextLike(node: Node) {
    node.TextNode? || node.OtherNode?
  }

  predicate PrintsNothing(node: Node) {
    node.Doctype? || (TextLike(node) && node.value == [])
  }

  predicate EndsHigh(node: Node) {
    TextLike(node) && node.value != [] && IsHigh(node.value[|node.value| - 1])
  }

  /** After siblings that print nothing comes text that starts with a low surrogate. */
  predicate StartsLow(nodes: seq<Node>) {
    nodes != [] &&
    if PrintsNothing(nodes[0]) then StartsLow(nodes[1..]) else TextLike(nodes[0]) && IsLow(nodes[0].value[0])
  }

  /** The places, anywhere in the printed tree, where text that ends with a high surrogate
      is followed by siblings that start with a low one. */
  function Shared(node: Node): nat {
    if !node.Element? || IsVoid(node) then 0
    else if IsTemplate(node) then SharedAmong(node.content)
    else SharedAmong(node.children)
  }

  function SharedAmong(nodes: seq<Node>): nat {
    if nodes == [] then 0
    else Shared(nodes[0]) + SharedAmong(nodes[1..]) + One(EndsHigh(nodes[0]) && StartsLow(nodes[1..]))
  }

  /** Text that starts and ends with ASCII takes part in no split. */
  ghost predicate Fenced(s: Str) {
    s == [] || (s[0] < 0x80 && s[|s| - 1] < 0x80)
  }

  lemma OnePiece(piece: Str)
    ensures SplitPairs([piece]) == 0 && Join([piece]) == piece
  {
    assert [piece][..0] == [];
  }

  lemma TwoPieces(a: Str, b: Str)
    requires Fenced(a) || Fenced(b)
    ensures SplitPairs([a, b]) == 0 && Join([a, b]) == a + b
  {
    SplitPairsConcat([a], [b]);
    JoinConcat([a], [b]);
    OnePiece(a);
    OnePiece(b);
    assert [a, b] == [a] + [b];
  }

  lemma TriplePieces(attr: Attr)
    ensures SplitPairs(AttributeTriple(attr)) == 0 && Join(AttributeTriple(attr)) != []
    ensures Fenced(Join(AttributeTriple(attr)))
  {
    hide Escaped;
    var a, v, q := [32] + attr.name + [61, 34], Escaped(attr.value, Attribute), [34];
    TwoPieces(a, v);
    SplitPairsConcat([a, v], [q]);
    JoinConcat([a, v], [q]);
    OnePiece(q);
    assert AttributeTriple(attr) == [a, v] + [q];
  }

  lemma {:induction false} AttributesWhole(attrs: seq<Attr>)
    ensures SplitPairs(AttributePieces(attrs)) == 0 && Fenced(Join(AttributePieces(attrs)))
  {
    hide AttributeTriple;
    if attrs != [] {
      AttributesWhole(attrs[1..]);
      TriplePieces(attrs[0]);
      SplitPairsConcat(AttributeTriple(attrs[0]), AttributePieces(attrs[1..]));
      JoinConcat(AttributeTriple(attrs[0]), AttributePieces(attrs[1..]));
    }
  }

  lemma OpenWhole(name: Str, attrs: seq<Attr>)
    ensures SplitPairs(OpenPieces(name, attrs)) == 0
    ensures Join(OpenPieces(name, attrs)) != [] && Fenced(Join(OpenPieces(name, attrs)))
  {
    hide AttributePieces;
    var tag, list, close := [[60] + name], AttributePieces(attrs), [[62]];
    AttributesWhole(attrs);
    OnePiece([60] + name);
    OnePiece([62]);
    SplitPairsConcat(tag, list);
    JoinConcat(tag, list);
    SplitPairsConcat(tag + list, close);
    JoinConcat(tag + list, close);
  }

  lemma CommentWhole(value: Str)
    ensures SplitPairs(CommentPieces(value)) == 0 && Join(CommentPieces(value)) != [] && Fenced(Join(CommentPieces(value)))
  {
    var a, b := Ascii("<!--"), Ascii("-->");
    TwoPieces(a, value);
    SplitPairsConcat([a, value], [b]);
    JoinConcat([a, value], [b]);
    OnePiece(b);
    assert CommentPieces(value) == [a, value] + [b];
  }

  lemma ElementWhole(name: Str, attrs: seq<Attr>, kids: seq<Str>)
    ensures SplitPairs(OpenPieces(name, attrs) + (kids + [ClosePiece(name)])) == SplitPairs(kids)
  {
    hide OpenPieces;
    var open, close := OpenPieces(name, attrs), [ClosePiece(name)];
    OpenWhole(name, attrs);
    OnePiece(ClosePiece(name));
    SplitPairsConcat(kids, close);
    SplitPairsConcat(open, kids + close);
  }

  lemma NothingAfter(name: Str, attrs: seq<Attr>)
    ensures SplitPairs(OpenPieces(name, attrs) + []) == 0
  {
    hide OpenPieces;
    OpenWhole(name, attrs);
    assert OpenPieces(name, attrs) + [] == OpenPieces(name, attrs);
  }

  // --- What a node's text starts and ends with ---

  lemma EscapedEnds(value: Str, mode: Mode)
    requires mode.Raw? || mode.Plain?
    ensures Escaped(value, mode) == [] <==> value == []
    ensures value != [] ==>
      && (IsHigh(Escaped(value, mode)[|Escaped(value, mode)| - 1]) <==> IsHigh(value[|value| - 1]))
      && (IsLow(Escaped(value, mode)[0]) <==> IsLow(value[0]))
  {
    hide Escaped, EscapeUnit;
    if value == [] {
      NoText(mode);
    } else {
      var front, last := value[..|value| - 1], value[|value| - 1];
      assert value == front + [last] && value == [value[0]] + value[1..];
      EscapedConcat(front, [last], mode);
      EscapedConcat([value[0]], value[1..], mode);
      EscapedUnitText(last, mode);
      EscapedUnitText(value[0], mode);
      UnitEnds(last, mode);
      UnitEnds(value[0], mode);
    }
  }

  lemma NoText(mode: Mode)
    ensures Escaped([], mode) == []
  {
  }

  lemma UnitEnds(u: CodeUnit, mode: Mode)
    requires mode.Raw? || mode.Plain?
    ensures EscapeUnit(u, mode) != []
    ensures IsHigh(EscapeUnit(u, mode)[|EscapeUnit(u, mode)| - 1]) <==> IsHigh(u)
    ensures IsLow(EscapeUnit(u, mode)[0]) <==> IsLow(u)
  {
  }

  lemma ElementEnds(node: Node, rawText: bool)
    requires node.Element?
    ensures Join(Pieces(node, rawText)) != [] && Fenced(Join(Pieces(node, rawText)))
  {
    hide OpenPieces, ChildrenPieces;
    OpenWhole(node.name, node.attrs);
    var open := OpenPieces(node.name, node.attrs);
    if IsVoid(node) {
      assert Pieces(node, rawText) == open + [];
      assert open + [] == open;
    } else {
      var kids := if IsTemplate(node) then ChildrenPieces(node.content, IsRawText(node)) else ChildrenPieces(node.children, IsRawText(node));
      var close := [ClosePiece(node.name)];
      assert Pieces(node, rawText) == open + (kids + close);
      OnePiece(ClosePiece(node.name));
      JoinConcat(kids, close);
      JoinConcat(open, kids + close);
    }
  }

  lemma NodeEnds(node: Node, rawText: bool)
    ensures var text := Join(Pieces(node, rawText));
      && (text == [] <==> PrintsNothing(node))
      && (text != [] ==> (IsHigh(text[|text| - 1]) <==> EndsHigh(node)))
      && (text != [] ==> (IsLow(text[0]) <==> TextLike(node) && IsLow(node.value[0])))
  {
    hide Escaped, OpenPieces, CommentPieces, ChildrenPieces, Join;
    match node
    case TextNode(value) =>
      EscapedEnds(value, if rawText then Raw else Plain);
      OnePiece(Escaped(value, if rawText then Raw else Plain));
    case OtherNode(value) => OnePiece(value);
    case Doctype(_) => OnePiece([]);
    case Comment(value) => CommentWhole(value);
    case Element(_, _, _, _, _, _) => ElementEnds(node, rawText);
  }

  lemma {:induction false} ListStarts(nodes: seq<Node>, rawText: bool)
    ensures var text := Join(ChildrenPieces(nodes, rawText));
      StartsLow(nodes) <==> text != [] && IsLow(text[0])
  {
    hide Pieces;
    if nodes != [] {
      ListStarts(nodes[1..], rawText);
      NodeEnds(nodes[0], rawText);
      JoinConcat(Pieces(nodes[0], rawText), ChildrenPieces(nodes[1..], rawText));
    }
  }

  /** The pairs that the printer's pieces split are those that siblings share. */
  lemma {:induction false} SplitsAreShared(node: Node, rawText: bool)
    ensures SplitPairs(Pieces(node, rawText)) == Shared(node)
    decreases node, 0
  {
    match node
    case TextNode(value) => OnePiece(Escaped(value, if rawText then Raw else Plain));
    case Comment(value) => CommentWhole(value);
    case Doctype(_) => OnePiece([]);
    case OtherNode(value) => OnePiece(value);
    case Element(_, name, attrs, children, content, _) =>
      hide OpenPieces, ClosePiece, ChildrenPieces, SharedAmong;
      if IsVoid(node) {
        NothingAfter(name, attrs);
      } else if IsTemplate(node) {
        ElementWhole(name, attrs, ChildrenPieces(content, IsRawText(node)));
        SplitsAreSharedAmong(content, IsRawText(node));
      } else {
        ElementWhole(name, attrs, ChildrenPieces(children, IsRawText(node)));
        SplitsAreSharedAmong(children, IsRawText(node));
      }
  }

  lemma {:induction false} SplitsAreSharedAmong(nodes: seq<Node>, rawText: bool)
    ensures SplitPairs(ChildrenPieces(nodes, rawText)) == SharedAmong(nodes)
    decreases nodes, 1
  {
    hide Pieces, Shared, StartsLow;
    if nodes != [] {
      NodeEnds(nodes[0], rawText);
      ListStarts(nodes[1..], rawText);
      SplitsAreShared(nodes[0], rawText);
      SplitsAreSharedAmong(nodes[1..], rawText);
      SplitPairsConcat(Pieces(nodes[0], rawText), ChildrenPieces(nodes[1..], rawText));
    }
  }

  /** The count is the UTF-8 length exactly when no pair is shared by siblings. */
  lemma CountIsExact(root: Node)
    ensures
      var pieces := Pieces(root, false);
      && TotalWidth(pieces) == Utf8Length(Join(pieces)) + 2 * Shared(root)
      && (TotalWidth(pieces) == Utf8Length(Join(pieces)) <==> Shared(root) == 0)
  {
    hide Pieces, Shared, Encode;
    SplitsAreShared(root, false);
    CountedBytes(Pieces(root, false));
  }

  /** Two neighbouring text nodes that hold the halves of a pair are counted two bytes
      above the length of the text they make. */
  lemma SplitPairIsCountedTwice(name: Str, high: CodeUnit, low: CodeUnit)
    requires IsHigh(high) && IsLow(low)
    ensures
      var root := Element(None, name, [], [TextNode([high]), TextNode([low])], [], NoShadow);
      Shared(root) == 1 && TotalWidth(Pieces(root, false)) == Utf8Length(Join(Pieces(root, false))) + 2
  {
    hide SharedAmong, Pieces, Encode;
    var root := Element(None, name, [], [TextNode([high]), TextNode([low])], [], NoShadow);
    PairShared(high, low);
    CountIsExact(root);
  }

  lemma PairShared(high: CodeUnit, low: CodeUnit)
    requires IsHigh(high) && IsLow(low)
    ensures SharedAmong([TextNode([high]), TextNode([low])]) == 1
  {
    var a, b := TextNode([high]), TextNode([low]);
    assert [a, b][1..] == [b] && [b][1..] == [];
    assert SharedAmong([b]) == 0;
  }
}
