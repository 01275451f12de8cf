/** The task machine writes the printed JSON of the record. */
module RepairText {
  import opened Text
  import opened Escape
  import opened Json
  import opened Dom
  import opened RepairData
  import opened RepairMachine

  function Key(name: string): Str {
    Ascii("\"" + name + "\":")
  }

  predicate IsWord(s: string) {
    forall i :: 0 <= i < |s| ==> 'A' <= s[i] <= 'Z' || 'a' <= s[i] <= 'z'
  }

  lemma AsciiConcat(a: string, b: string)
    ensures Ascii(a + b) == Ascii(a) + Ascii(b)
  {
  }

  lemma QuotedWord(word: string)
    requires IsWord(word)
    ensures Quoted(Ascii(word), ScriptJson) == Ascii("\"" + word + "\"")
  {
    assert Unescaped(Ascii(word), 0, |word|, ScriptJson);
    EscapedPlain(Ascii(word), ScriptJson);
    AsciiConcat("\"", word);
    AsciiConcat("\"" + word, "\"");
  }

  lemma FieldText(name: string, v: Value, rest: Str)
    requires IsWord(name)
    ensures MemberText(Field(name, v), ScriptJson) + rest == Key(name) + (Print(v, ScriptJson) + rest)
  {
    hide Quoted, Print;
    QuotedWord(name);
    AsciiConcat("\"" + name + "\"", ":");
    assert "\"" + name + "\"" + ":" == "\"" + name + "\":";
    ConcatAssociates(Key(name), Print(v, ScriptJson), rest);
  }

  /** The first field of a list of fields. */
  lemma FieldsStep(ms: seq<Member>, first: bool, name: string, v: Value, rest: Str)
    requires ms != [] && ms[0] == Field(name, v) && IsWord(name)
    ensures MembersText(ms, first, ScriptJson) + rest ==
      Comma(first) + (Key(name) + (Print(v, ScriptJson) + (MembersText(ms[1..], false, ScriptJson) + rest)))
  {
    hide Print, Key;
    var later := MembersText(ms[1..], false, ScriptJson);
    FieldText(name, v, later + rest);
    ConcatAssociates(Comma(first) + MemberText(ms[0], ScriptJson), later, rest);
    ConcatAssociates(Comma(first), MemberText(ms[0], ScriptJson), later + rest);
  }

  lemma NoFields(rest: Str)
    ensures MembersText([], false, ScriptJson) + rest == rest
  {
  }

  lemma CommaKey(name: string, rest: Str)
    ensures Comma(false) + (Key(name) + rest) == Ascii(",\"" + name + "\":") + rest
  {
    AsciiConcat(",", "\"" + name + "\":");
    assert "," + ("\"" + name + "\":") == ",\"" + name + "\":";
    ConcatAssociates(Ascii(","), Key(name), rest);
  }

  lemma KindLiteral(kind: string)
    requires IsWord(kind)
    ensures Ascii("{\"kind\":\"" + kind + "\"") == ([123] + Key("kind")) + Quoted(Ascii(kind), ScriptJson)
  {
    hide Quoted;
    QuotedWord(kind);
    AsciiConcat("{", "\"" + "kind" + "\":");
    AsciiConcat("{" + ("\"" + "kind" + "\":"), "\"" + kind + "\"");
    assert "{" + ("\"" + "kind" + "\":") + ("\"" + kind + "\"") == "{\"kind\":\"" + kind + "\"";
    assert Ascii("{") == [123];
  }

  lemma Associate3(a: Str, b: Str, c: Str, d: Str)
    ensures a + (b + (c + d)) == ((a + b) + c) + d
  {
  }

  /** The opening of an object whose first field is its kind. */
  lemma KindText(ms: seq<Member>, kind: string, rest: Str)
    requires ms != [] && ms[0] == Field("kind", String(Ascii(kind))) && IsWord(kind)
    ensures Print(Object(ms), ScriptJson) + rest ==
      Ascii("{\"kind\":\"" + kind + "\"") + (MembersText(ms[1..], false, ScriptJson) + ([125] + rest))
  {
    hide MembersText, Quoted, Key, Ascii;
    var tail := [125] + rest;
    var later := MembersText(ms[1..], false, ScriptJson) + tail;
    FieldsStep(ms, true, "kind", String(Ascii(kind)), tail);
    KindLiteral(kind);
    ObjectOpens(ms, rest);
    assert MembersText(ms, true, ScriptJson) + tail == Key("kind") + (Quoted(Ascii(kind), ScriptJson) + later);
    Associate3([123], Key("kind"), Quoted(Ascii(kind), ScriptJson), later);
  }

  lemma ObjectOpens(ms: seq<Member>, rest: Str)
    ensures Print(Object(ms), ScriptJson) + rest == [123] + (MembersText(ms, true, ScriptJson) + ([125] + rest))
  {
    hide MembersText;
  }

  lemma WordNames()
    ensures IsWord("kind") && IsWord("value") && IsWord("marker") && IsWord("namespace") && IsWord("name")
    ensures IsWord("children") && IsWord("templateContent") && IsWord("shadowMode")
    ensures IsWord("text") && IsWord("comment") && IsWord("element")
  {
    hide IsWord;
    ShortNames();
    LongNames();
  }

  lemma ShortNames()
    ensures IsWord("kind") && IsWord("value") && IsWord("marker") && IsWord("name")
    ensures IsWord("text") && IsWord("comment") && IsWord("element")
  {
  }

  lemma LongNames()
    ensures IsWord("namespace") && IsWord("children") && IsWord("templateContent") && IsWord("shadowMode")
  {
  }

  lemma StringField(ms: seq<Member>, name: string, v: Str, rest: Str)
    requires ms != [] && ms[0] == Field(name, String(v)) && IsWord(name)
    ensures MembersText(ms, false, ScriptJson) + rest ==
      Ascii(",\"" + name + "\":") + (Quoted(v, ScriptJson) + (MembersText(ms[1..], false, ScriptJson) + rest))
  {
    hide MembersText, Quoted, Key, Ascii, Comma;
    FieldsStep(ms, false, name, String(v), rest);
    CommaKey(name, Quoted(v, ScriptJson) + (MembersText(ms[1..], false, ScriptJson) + rest));
  }

  lemma ArrayField(ms: seq<Member>, name: string, items: seq<Value>, rest: Str)
    requires ms != [] && ms[0] == Field(name, Array(items)) && IsWord(name)
    ensures MembersText(ms, false, ScriptJson) + rest ==
      Ascii(",\"" + name + "\":[") +
      ((ItemsText(items, true, ScriptJson) + [93]) + (MembersText(ms[1..], false, ScriptJson) + rest))
  {
    hide MembersText, ItemsText, Key, Ascii, Comma;
    var later := MembersText(ms[1..], false, ScriptJson) + rest;
    var inside := (ItemsText(items, true, ScriptJson) + [93]) + later;
    FieldsStep(ms, false, name, Array(items), rest);
    CommaKey(name, Print(Array(items), ScriptJson) + later);
    ArrayOpens(items, later);
    OpenBracket(name, inside);
  }

  lemma ArrayOpens(items: seq<Value>, later: Str)
    ensures Print(Array(items), ScriptJson) + later == [91] + ((ItemsText(items, true, ScriptJson) + [93]) + later)
  {
    hide ItemsText;
  }

  lemma OpenBracket(name: string, inside: Str)
    ensures Ascii(",\"" + name + "\":") + ([91] + inside) == Ascii(",\"" + name + "\":[") + inside
  {
    AsciiConcat(",\"" + name + "\":", "[");
    assert ",\"" + name + "\":" + "[" == ",\"" + name + "\":[";
    assert Ascii("[") == [91];
    ConcatAssociates(Ascii(",\"" + name + "\":"), [91], inside);
  }

  // --- Tokens as nested concatenations ---

  lemma ThreeTokens(a: Token, b: Token, c: Token)
    ensures TokensText([a, b, c]) == TokenText(a) + (TokenText(b) + (TokenText(c) + []))
  {
    hide TokenText;
    assert [a, b, c][1..] == [b, c] && [b, c][1..] == [c] && [c][1..] == [];
    assert TokensText([c]) == TokenText(c) + TokensText([]);
    assert TokensText([b, c]) == TokenText(b) + TokensText([c]);
  }

  lemma OneToken(a: Token)
    ensures TokensText([a]) == TokenText(a)
  {
    hide TokenText;
    assert [a][1..] == [] && TokenText(a) + [] == TokenText(a);
  }

  lemma MoreTokens(a: Token, b: Token, more: seq<Token>)
    ensures TokensText([a, b] + more) == TokenText(a) + (TokenText(b) + TokensText(more))
  {
    hide TokenText;
    assert ([a, b] + more)[1..] == [b] + more && ([b] + more)[1..] == more;
    assert TokensText([b] + more) == TokenText(b) + TokensText(more);
  }

  lemma HeadJoin(a: string, b: string, c: string, rest: Str)
    requires a + b == c
    ensures Ascii(a) + (Ascii(b) + rest) == Ascii(c) + rest
  {
    AsciiConcat(a, b);
    ConcatAssociates(Ascii(a), Ascii(b), rest);
  }

  /** Text and comment nodes. */
  lemma LeafText(kind: string, head: string, value: Str)
    requires (kind == "text" && head == TEXT_HEAD) || (kind == "comment" && head == COMMENT_HEAD)
    ensures TokensText(LeafTokens(head, value)) ==
      Print(Object([Field("kind", String(Ascii(kind))), Field("value", String(value))]), ScriptJson)
  {
    hide MembersText, Quoted, Key, Ascii, TokensText, Print;
    WordNames();
    var ms := [Field("kind", String(Ascii(kind))), Field("value", String(value))];
    KindText(ms, kind, []);
    assert ms[1..][1..] == [];
    StringField(ms[1..], "value", value, [125] + []);
    NoFields([125] + []);
    ThreeTokens(Lit(Ascii(head)), Quote(value), Lit(Ascii("}")));
    LeafHeads();
    HeadJoin("{\"kind\":\"" + kind + "\"", ",\"" + "value" + "\":", head, Quoted(value, ScriptJson) + ([125] + []));
    BraceText();
    assert Print(Object(ms), ScriptJson) + [] == Print(Object(ms), ScriptJson);
  }

  lemma LeafHeads()
    ensures "{\"kind\":\"" + "text" + "\"" + (",\"" + "value" + "\":") == TEXT_HEAD
    ensures "{\"kind\":\"" + "comment" + "\"" + (",\"" + "value" + "\":") == COMMENT_HEAD
  {
  }

  lemma BraceText()
    ensures Ascii("}") == [125] && Ascii("]") == [93] && Ascii(",") == [44]
  {
  }

  function Nest(a: Str, b: Str, c: Str, d: Str, e: Str, f: Str, g: Str, rest: Str): Str {
    a + (b + (c + (d + (e + (f + (g + rest))))))
  }

  lemma NestConcat(a: Str, b: Str, c: Str, d: Str, e: Str, f: Str, g: Str, rest: Str)
    ensures Nest(a, b, c, d, e, f, g, []) + rest == Nest(a, b, c, d, e, f, g, rest)
  {
    assert (g + []) + rest == g + rest;
    ConcatAssociates(f, g + [], rest);
    ConcatAssociates(e, f + (g + []), rest);
    ConcatAssociates(d, e + (f + (g + [])), rest);
    ConcatAssociates(c, d + (e + (f + (g + []))), rest);
    ConcatAssociates(b, c + (d + (e + (f + (g + [])))), rest);
    ConcatAssociates(a, b + (c + (d + (e + (f + (g + []))))), rest);
  }

  function Kept(mode: Option<Str>): Option<Str> {
    if mode == Some([]) then None else mode
  }

  lemma CloseText(ms: seq<Member>, mode: Option<Str>)
    requires ms == if Kept(mode).Some? then [Field("shadowMode", String(Kept(mode).value))] else []
    ensures MembersText(ms, false, ScriptJson) + ([125] + []) == TokensText(CloseTokens(mode))
  {
    hide Quoted, Key, Ascii, MembersText, TokensText, TokenText;
    BraceText();
    NoFields([125] + []);
    if Kept(mode).Some? {
      WordNames();
      StringField(ms, "shadowMode", mode.value, [125] + []);
      assert ms[1..] == [];
      ShadowTokens(mode.value);
      assert ",\"" + "shadowMode" + "\":" == ",\"shadowMode\":";
    } else {
      CloseBrace();
    }
  }

  lemma CloseBrace()
    ensures TokensText([Lit(Ascii("}"))]) == [125] + []
  {
    OneToken(Lit(Ascii("}")));
    BraceText();
  }

  lemma ShadowTokens(mode: Str)
    ensures TokensText([Lit(Ascii(",\"shadowMode\":")), Quote(mode), Lit(Ascii("}"))]) ==
      Ascii(",\"shadowMode\":") + (Quoted(mode, ScriptJson) + ([125] + []))
  {
    hide Quoted;
    ThreeTokens(Lit(Ascii(",\"shadowMode\":")), Quote(mode), Lit(Ascii("}")));
    BraceText();
  }

  lemma HeadText(element: Node)
    requires element.Element?
    ensures TokensText(HeadTokens(element)) ==
      Nest(Ascii("{\"kind\":\"element\",\"marker\":"), Quoted(Marker(element), ScriptJson),
           Ascii(",\"namespace\":"), Quoted(Namespace(element), ScriptJson),
           Ascii(",\"name\":"), Quoted(element.name, ScriptJson), Ascii(",\"children\":["), [])
  {
    hide TokensText, Quoted, Ascii, Marker, Namespace;
    var t := HeadTokens(element);
    MoreTokens(t[0], t[1], t[2..]);
    MoreTokens(t[2], t[3], t[4..]);
    MoreTokens(t[4], t[5], t[6..]);
    OneToken(t[6]);
    assert t == [t[0], t[1]] + t[2..] && t[2..] == [t[2], t[3]] + t[4..] && t[4..] == [t[4], t[5]] + t[6..] && t[6..] == [t[6]];
    assert TokenText(t[6]) + [] == TokenText(t[6]);
  }

  /** The fields of an element record in order. */
  lemma ElementText(r: RepairNode, mode: Option<Str>)
    requires r.RepairElement? && r.shadowMode == Kept(mode)
    ensures Print(ToValue(r), ScriptJson) ==
      Nest(Ascii("{\"kind\":\"element\",\"marker\":"), Quoted(r.marker, ScriptJson),
           Ascii(",\"namespace\":"), Quoted(r.ns, ScriptJson),
           Ascii(",\"name\":"), Quoted(r.name, ScriptJson), Ascii(",\"children\":["),
           (ItemsText(ToValues(r.children), true, ScriptJson) + [93]) +
           (Ascii(TEMPLATE_HEAD) +
            ((ItemsText(ToValues(r.templateContent), true, ScriptJson) + [93]) + TokensText(CloseTokens(mode)))))
  {
    hide MembersText, Quoted, Key, Ascii, TokensText, Print, ItemsText, ToValues, CloseTokens;
    WordNames();
    ElementHeads();
    var ms := ToValue(r).members;
    var end := [125] + [];
    KindText(ms, "element", []);
    Tails(ms);
    StringField(ms[1..], "marker", r.marker, end);
    StringField(ms[2..], "namespace", r.ns, end);
    StringField(ms[3..], "name", r.name, end);
    ArrayField(ms[4..], "children", ToValues(r.children), end);
    ArrayField(ms[5..], "templateContent", ToValues(r.templateContent), end);
    CloseText(ms[6..], mode);
    HeadJoin("{\"kind\":\"" + "element" + "\"", ",\"" + "marker" + "\":", "{\"kind\":\"element\",\"marker\":",
             Quoted(r.marker, ScriptJson) + (MembersText(ms[2..], false, ScriptJson) + end));
    assert Print(Object(ms), ScriptJson) + [] == Print(Object(ms), ScriptJson);
  }

  lemma Tails(ms: seq<Member>)
    requires |ms| >= 6
    ensures ms[1..][1..] == ms[2..] && ms[2..][1..] == ms[3..] && ms[3..][1..] == ms[4..]
    ensures ms[4..][1..] == ms[5..] && ms[5..][1..] == ms[6..]
  {
  }

  lemma ElementHeads()
    ensures "{\"kind\":\"" + "element" + "\"" + (",\"" + "marker" + "\":") == "{\"kind\":\"element\",\"marker\":"
    ensures ",\"" + "namespace" + "\":" == ",\"namespace\":"
    ensures ",\"" + "name" + "\":" == ",\"name\":"
    ensures ",\"" + "children" + "\":[" == ",\"children\":["
    ensures ",\"" + "templateContent" + "\":[" == TEMPLATE_HEAD
  {
  }

  /** The machine's output for a node the record can hold is the printed record. */
  lemma {:induction false} NodeText(node: Node)
    ensures Supported(node) ==> NodeOut(node) == Out(Print(ToValue(Record(node)), ScriptJson), true)
    ensures !Supported(node) ==> !NodeOut(node).complete
    decreases node, 0
  {
    hide MembersText, Quoted, Ascii, TokensText, Print, ItemsText, ToValue, ToValues, CloseTokens, HeadTokens, LeafTokens;
    match node
    case TextNode(value) =>
      LeafText("text", TEXT_HEAD, value);
      LeafRecord(node);
    case Comment(value) =>
      LeafText("comment", COMMENT_HEAD, value);
      LeafRecord(node);
    case Element(_, _, _, children, content, _) =>
      ChildrenText(children, true);
      if IsTemplate(node) {
        ChildrenText(content, true);
      } else {
        NothingText();
      }
      if Supported(node) {
        SupportedElement(node);
      }
    case _ =>
  }

  lemma LeafRecord(node: Node)
    requires node.TextNode? || node.Comment?
    ensures ToValue(Record(node)) ==
      Object([Field("kind", String(Ascii(if node.TextNode? then "text" else "comment"))), Field("value", String(node.value))])
  {
  }

  lemma NothingText()
    ensures NothingOut == Out(ItemsText([], true, ScriptJson) + [93], true)
    ensures ToValues([]) == []
  {
    OneToken(Lit(Ascii("]")));
    BraceText();
  }

  lemma SupportedElement(node: Node)
    requires node.Element? && Supported(node)
    requires ChildrenOut(node.children, true) == Out(ItemsText(ToValues(Records(node.children)), true, ScriptJson) + [93], true)
    requires IsTemplate(node) ==>
      ChildrenOut(node.content, true) == Out(ItemsText(ToValues(Records(node.content)), true, ScriptJson) + [93], true)
    ensures NodeOut(node) == Out(Print(ToValue(Record(node)), ScriptJson), true)
  {
    hide MembersText, Quoted, Ascii, TokensText, Print, ItemsText, ToValue, ToValues, CloseTokens, HeadTokens, Nest;
    var r := Record(node);
    var mode := if IsTemplate(node) then GetAttribute(node.attrs, SHADOW_MODE) else None;
    ElementText(r, mode);
    HeadText(node);
    OneToken(Lit(Ascii(TEMPLATE_HEAD)));
    NothingText();
    var inner := (ItemsText(ToValues(r.children), true, ScriptJson) + [93]) +
      (Ascii(TEMPLATE_HEAD) +
       ((ItemsText(ToValues(r.templateContent), true, ScriptJson) + [93]) + TokensText(CloseTokens(mode))));
    NestConcat(Ascii("{\"kind\":\"element\",\"marker\":"), Quoted(r.marker, ScriptJson),
               Ascii(",\"namespace\":"), Quoted(r.ns, ScriptJson),
               Ascii(",\"name\":"), Quoted(r.name, ScriptJson), Ascii(",\"children\":["), inner);
  }

  lemma {:induction false} ChildrenText(nodes: seq<Node>, first: bool)
    ensures AllSupported(nodes) ==>
      ChildrenOut(nodes, first) == Out(ItemsText(ToValues(Records(nodes)), first, ScriptJson) + [93], true)
    ensures !AllSupported(nodes) ==> !ChildrenOut(nodes, first).complete
    decreases nodes, 1
  {
    hide Ascii, TokensText, Print, ToValue;
    if nodes == [] {
      NothingText();
    } else {
      NodeText(nodes[0]);
      ChildrenText(nodes[1..], false);
      SeparatorText();
      if AllSupported(nodes) {
        var vs := ToValues(Records(nodes));
        RecordsStep(nodes);
        ItemsJoin(vs, first);
      }
    }
  }

  lemma RecordsStep(nodes: seq<Node>)
    requires nodes != [] && AllSupported(nodes)
    ensures var vs := ToValues(Records(nodes));
      vs != [] && vs[0] == ToValue(Record(nodes[0])) && vs[1..] == ToValues(Records(nodes[1..]))
  {
    hide ToValue;
    var rs := Records(nodes);
    assert rs[0] == Record(nodes[0]) && rs[1..] == Records(nodes[1..]);
  }

  lemma SeparatorText()
    ensures TokensText([]) == [] && TokensText([Lit(Ascii(","))]) == [44]
  {
    OneToken(Lit(Ascii(",")));
    BraceText();
  }

  lemma ItemsJoin(vs: seq<Value>, first: bool)
    requires vs != []
    ensures ItemsText(vs, first, ScriptJson) + [93] ==
      Comma(first) + (Print(vs[0], ScriptJson) + (ItemsText(vs[1..], false, ScriptJson) + [93]))
  {
    hide Print;
  }

  /** The record of a supported tree is the JSON text that reads back as the tree, is
      inert inside a script element, and is what the machine writes. */
  lemma RecordText(root: Node)
    ensures Supported(root) ==>
      RecordOut(root) == Out(Print(Document(Record(root)), ScriptJson), true)
    ensures !Supported(root) ==> !RecordOut(root).complete
  {
    hide MembersText, Ascii, Print, NodeOut, ToValue;
    NodeText(root);
    if Supported(root) {
      var v := ToValue(Record(root));
      var ms := Document(Record(root)).members;
      ObjectOpens(ms, []);
      assert IsWord("documentElement");
      FieldsStep(ms, true, "documentElement", v, [125] + []);
      assert ms[1..] == [];
      NoFields([125] + []);
      DocumentHead();
      BraceText();
      var inside := Print(v, ScriptJson) + ([125] + []);
      assert [] + (Key("documentElement") + inside) == Key("documentElement") + inside;
      ConcatAssociates([123], Key("documentElement"), inside);
      assert Print(Document(Record(root)), ScriptJson) + [] == Print(Document(Record(root)), ScriptJson);
    }
  }

  lemma DocumentHead()
    ensures Ascii(RECORD_HEAD) == [123] + Key("documentElement")
  {
    AsciiConcat("{", "\"" + "documentElement" + "\":");
    assert "{" + ("\"" + "documentElement" + "\":") == RECORD_HEAD;
    assert Ascii("{") == [123];
  }

  lemma RecordReadsBack(root: Node, maximumBytes: nat)
    requires root.Element?
    ensures Owed(RecordOut(root), maximumBytes).Unsupported? ==> !Supported(root)
    ensures Supported(root) ==>
      var text := Print(Document(Record(root)), ScriptJson);
      && (Owed(RecordOut(root), maximumBytes).result.Ok? <==> Utf8Length(text) <= maximumBytes)
      && (Utf8Length(text) <= maximumBytes ==> Owed(RecordOut(root), maximumBytes).result.value == text)
      && Inert(text)
      && var parsed := ParseText(text); parsed.Some? && FromDocument(parsed.value) == Some(Record(root))
  {
    hide Print, ParseText, FromDocument, RecordOut, Record, Supported;
    RecordText(root);
    if Supported(root) {
      RecordRoundTrip(Record(root));
      PrintInert(Document(Record(root)));
    }
  }
}
