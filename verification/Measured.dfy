/** What the preflight counts, against what the serializer writes. */
module Measured {
  import opened Text
  import opened Writer
  import opened Escape
  import opened Dom
  import opened Html
  import opened Preflight

  /** No attribute value holds a character that is replaced. */
  ghost predicate VerbatimAttributes(attrs: seq<Attr>) {
    forall i :: 0 <= i < |attrs| ==> Unescaped(attrs[i].value, 0, |attrs[i].value|, Attribute)
  }

  /** The serializer writes all of the tree and writes it as it is: nothing is replaced, no
      element is void, and there are no doctypes, shadow roots or children of templates. */
  ghost predicate Verbatim(node: Node, rawText: bool) {
    match node
    case TextNode(value) => rawText || Unescaped(value, 0, |value|, Plain)
    case Comment(_) => true
    case OtherNode(_) => true
    case Doctype(_) => false
    case Element(_, _, attrs, children, content, shadow) =>
      && !IsVoid(node) && shadow.NoShadow? && VerbatimAttributes(attrs)
      && if IsTemplate(node) then children == [] && AllVerbatim(content, IsRawText(node)) else AllVerbatim(children, IsRawText(node))
  }

  ghost predicate AllVerbatim(nodes: seq<Node>, rawText: bool) {
    nodes == [] || (Verbatim(nodes[0], rawText) && AllVerbatim(nodes[1..], rawText))
  }

  lemma OneWidth(piece: Str)
    ensures TotalWidth([piece]) == Utf8Length(piece)
  {
    assert [piece][..0] == [];
    AppendPiece([], piece);
    assert [] + [piece] == [piece];
  }

  lemma FencedWidth(front: Str, value: Str, back: Str)
    requires forall i :: 0 <= i < |front| ==> front[i] < 0x80
    requires forall i :: 0 <= i < |back| ==> back[i] < 0x80
    ensures Utf8Length(front + value + back) == |front| + Utf8Length(value) + |back|
  {
    EncodeConcat(front, value);
    EncodeConcat(front + value, back);
    AsciiLength(front);
    AsciiLength(back);
  }

  lemma TripleWidth(attr: Attr)
    requires Unescaped(attr.value, 0, |attr.value|, Attribute)
    ensures TotalWidth(AttributeTriple(attr)) == AttrBytes(attr)
  {
    hide Encode, Utf8Length, TotalWidth, EncodeAll;
    var a, v, q := [32] + attr.name + [61, 34], attr.value, [34];
    EscapedPlain(attr.value, Attribute);
    assert AttributeTriple(attr) == [a] + [v] + [q];
    ConcatPieces([a], [v]);
    ConcatPieces([a] + [v], [q]);
    OneWidth(a);
    OneWidth(v);
    OneWidth(q);
    FencedWidth([32], attr.name, [61, 34]);
    FencedWidth([34], [], []);
    assert [34] + [] + [] == q;
    NoWidth();
  }

  lemma NoWidth()
    ensures Utf8Length([]) == 0 && TotalWidth([]) == 0
  {
  }

  lemma {:induction false} AttrsBytesFromFront(attrs: seq<Attr>)
    requires attrs != []
    ensures AttrsBytes(attrs) == AttrBytes(attrs[0]) + AttrsBytes(attrs[1..])
    decreases |attrs|
  {
    hide AttrBytes;
    var front := attrs[..|attrs| - 1];
    if front == [] {
      assert attrs[1..] == [];
    } else {
      AttrsBytesFromFront(front);
      assert front[1..] == attrs[1..][..|attrs| - 2];
    }
  }

  lemma {:induction false} AttributesWidth(attrs: seq<Attr>)
    requires VerbatimAttributes(attrs)
    ensures TotalWidth(AttributePieces(attrs)) == AttrsBytes(attrs)
  {
    hide AttributeTriple, AttrBytes, EncodeAll, Encode;
    NoWidth();
    if attrs != [] {
      hide TotalWidth;
      AttributesWidth(attrs[1..]);
      TripleWidth(attrs[0]);
      AttrsBytesFromFront(attrs);
      ConcatPieces(AttributeTriple(attrs[0]), AttributePieces(attrs[1..]));
    }
  }

  lemma TagsWidth(name: Str, attrs: seq<Attr>)
    requires VerbatimAttributes(attrs)
    ensures TotalWidth(OpenPieces(name, attrs)) + TotalWidth([ClosePiece(name)])
            == 2 + Utf8Length(name) + AttrsBytes(attrs) + 3 + Utf8Length(name)
  {
    hide TotalWidth, EncodeAll, Encode, Utf8Length, AttributePieces, AttrsBytes;
    var tag, list := [60] + name, AttributePieces(attrs);
    AttributesWidth(attrs);
    ConcatPieces([tag], list);
    ConcatPieces([tag] + list, [[62]]);
    OneWidth(tag);
    OneWidth([62]);
    OneWidth(ClosePiece(name));
    NoWidth();
    FencedWidth([60], name, []);
    assert [60] + name + [] == tag;
    FencedWidth([62], [], []);
    assert [62] + [] + [] == [62];
    FencedWidth([60, 47], name, [62]);
  }

  /** What the preflight counts for a tree is exactly what its text takes, when the
      serializer writes all of it as it is. */
  lemma {:induction false} PreflightIsExact(node: Node, rawText: bool)
    requires Verbatim(node, rawText)
    ensures TotalWidth(Pieces(node, rawText)) == TreeBytes(node)
  {
    hide TotalWidth, EncodeAll, Encode, Utf8Length, OpenPieces, ClosePiece, ChildrenPieces, AllVerbatim, VerbatimAttributes, AttrsBytes,
         Escaped, Unescaped;
    match node
    case TextNode(value) =>
      if !rawText {
        EscapedPlain(value, Plain);
      } else {
        RawIsPlain(value);
      }
      OneWidth(value);
    case Comment(value) =>
      assert CommentPieces(value) == [Ascii("<!--")] + [value] + [Ascii("-->")];
      ConcatPieces([Ascii("<!--")], [value]);
      ConcatPieces([Ascii("<!--")] + [value], [Ascii("-->")]);
      OneWidth(Ascii("<!--"));
      OneWidth(value);
      OneWidth(Ascii("-->"));
      MarksWidth();
    case OtherNode(value) => OneWidth(value);
    case Element(_, name, attrs, children, content, _) =>
      var inside := if IsTemplate(node) then content else children;
      var kids := ChildrenPieces(inside, IsRawText(node));
      TagsWidth(name, attrs);
      ConcatPieces(kids, [ClosePiece(name)]);
      ConcatPieces(OpenPieces(name, attrs), kids + [ClosePiece(name)]);
      if IsTemplate(node) {
        ForestIsExact(content, IsRawText(node));
        NoForest();
      } else {
        ForestIsExact(children, IsRawText(node));
      }
  }

  lemma RawIsPlain(value: Str)
    ensures Escaped(value, Raw) == value
  {
    EscapedPlain(value, Raw);
  }

  lemma MarksWidth()
    ensures Utf8Length(Ascii("<!--")) == 4 && Utf8Length(Ascii("-->")) == 3
  {
    hide Encode;
    AsciiLength(Ascii("<!--"));
    AsciiLength(Ascii("-->"));
  }

  lemma NoForest()
    ensures ForestBytes([]) == 0
  {
  }

  lemma {:induction false} ForestIsExact(nodes: seq<Node>, rawText: bool)
    requires AllVerbatim(nodes, rawText)
    ensures TotalWidth(ChildrenPieces(nodes, rawText)) == ForestBytes(nodes)
  {
    hide Verbatim, Pieces, TreeBytes, EncodeAll, Encode;
    NoWidth();
    if nodes != [] {
      hide TotalWidth;
      PreflightIsExact(nodes[0], rawText);
      ForestIsExact(nodes[1..], rawText);
      ConcatPieces(Pieces(nodes[0], rawText), ChildrenPieces(nodes[1..], rawText));
    }
  }
}
