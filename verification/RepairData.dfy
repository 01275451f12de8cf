/**
 The structural repair record: what it keeps of a tree, its JSON value, the reader that
 gets it back, and why its text is safe inside a script element.
 */
module RepairData {
  import opened Text
  import opened Escape
  import opened Json
  import opened Dom

  const MARKER_ATTRIBUTE: Str := Ascii("data-offprint-node")
  const SHADOW_MODE: Str := Ascii("shadowrootmode")

  function OrElse(value: Option<Str>, default: Str): Str {
    if value.Some? then value.value else default
  }

  function Marker(element: Node): Str
    requires element.Element?
  {
    OrElse(GetAttribute(element.attrs, MARKER_ATTRIBUTE), [])
  }

  function Namespace(element: Node): Str
    requires element.Element?
  {
    OrElse(element.ns, HTML_NAMESPACE)
  }

  /** The mode the record carries; an empty mode is dropped. */
  function ShadowMode(element: Node): Option<Str>
    requires element.Element?
  {
    if IsTemplate(element) && GetAttribute(element.attrs, SHADOW_MODE) != Some([])
    then GetAttribute(element.attrs, SHADOW_MODE) else None
  }

  // --- The record as a tree, its JSON value, and the reader ---

  datatype RepairNode =
    | RepairElement(marker: Str, ns: Str, name: Str, children: seq<RepairNode>,
                    templateContent: seq<RepairNode>, shadowMode: Option<Str>)
    | RepairText(value: Str)
    | RepairComment(value: Str)

  /** Element, text and comment nodes are all the record can hold. */
  predicate Supported(node: Node) {
    match node
    case Element(_, _, _, children, content, _) =>
      AllSupported(children) && (IsTemplate(node) ==> AllSupported(content))
    case TextNode(_) => true
    case Comment(_) => true
    case _ => false
  }

  predicate AllSupported(nodes: seq<Node>) {
    nodes == [] || (Supported(nodes[0]) && AllSupported(nodes[1..]))
  }

  /** What the record keeps of a node. */
  function Record(node: Node): RepairNode
    requires Supported(node)
  {
    match node
    case Element(_, name, _, children, content, _) =>
      RepairElement(Marker(node), Namespace(node), name, Records(children),
                    if IsTemplate(node) then Records(content) else [], ShadowMode(node))
    case TextNode(value) => RepairText(value)
    case Comment(value) => RepairComment(value)
  }

  function Records(nodes: seq<Node>): seq<RepairNode>
    requires AllSupported(nodes)
  {
    if nodes == [] then [] else [Record(nodes[0])] + Records(nodes[1..])
  }

  function Field(key: string, value: Value): Member {
    Member(Ascii(key), value)
  }

  function ToValue(r: RepairNode): Value {
    match r
    case RepairText(value) => Object([Field("kind", String(Ascii("text"))), Field("value", String(value))])
    case RepairComment(value) => Object([Field("kind", String(Ascii("comment"))), Field("value", String(value))])
    case RepairElement(marker, ns, name, children, templateContent, shadowMode) =>
      Object([Field("kind", String(Ascii("element"))), Field("marker", String(marker)),
              Field("namespace", String(ns)), Field("name", String(name)),
              Field("children", Array(ToValues(children))),
              Field("templateContent", Array(ToValues(templateContent)))]
             + if shadowMode.Some? then [Field("shadowMode", String(shadowMode.value))] else [])
  }

  function ToValues(rs: seq<RepairNode>): seq<Value> {
    if rs == [] then [] else [ToValue(rs[0])] + ToValues(rs[1..])
  }

  function Document(r: RepairNode): Value {
    Object([Field("documentElement", ToValue(r))])
  }

  function FieldString(members: seq<Member>, key: string): Option<Str> {
    match Lookup(members, Ascii(key))
    case Some(String(s)) => Some(s)
    case _ => None
  }

  /** A reader of the record that looks members up by name. */
  function FromValue(v: Value): Option<RepairNode> {
    if !v.Object? then None
    else
      var ms := v.members;
      var kind := FieldString(ms, "kind");
      if kind == Some(Ascii("text")) then
        (match FieldString(ms, "value") case Some(s) => Some(RepairText(s)) case None => None)
      else if kind == Some(Ascii("comment")) then
        (match FieldString(ms, "value") case Some(s) => Some(RepairComment(s)) case None => None)
      else if kind == Some(Ascii("element")) then
        var marker, ns, name := FieldString(ms, "marker"), FieldString(ms, "namespace"), FieldString(ms, "name");
        var children, content := Lookup(ms, Ascii("children")), Lookup(ms, Ascii("templateContent"));
        if marker.None? || ns.None? || name.None? then None
        else if children.None? || !children.value.Array? || content.None? || !content.value.Array? then None
        else
          LookupSmaller(ms, Ascii("children"));
          LookupSmaller(ms, Ascii("templateContent"));
          var cs, ts := FromValues(children.value.items), FromValues(content.value.items);
          if cs.None? || ts.None? then None
          else Some(RepairElement(marker.value, ns.value, name.value, cs.value, ts.value, FieldString(ms, "shadowMode")))
      else None
  }

  function FromValues(vs: seq<Value>): Option<seq<RepairNode>> {
    if vs == [] then Some([])
    else
      match FromValue(vs[0])
      case None => None
      case Some(r) =>
        match FromValues(vs[1..])
        case None => None
        case Some(rs) => Some([r] + rs)
  }

  lemma {:induction false} LookupSmaller(members: seq<Member>, key: Str)
    ensures Lookup(members, key).Some? ==> Member(key, Lookup(members, key).value) in members
  {
    if members != [] && members[0].key != key {
      LookupSmaller(members[1..], key);
    }
  }

  function FromDocument(v: Value): Option<RepairNode> {
    if !v.Object? then None
    else
      match Lookup(v.members, Ascii("documentElement"))
      case None => None
      case Some(r) => FromValue(r)
  }

  lemma DistinctKeys()
    ensures Ascii("kind")[0] == 107 && |Ascii("kind")| == 4
    ensures Ascii("marker")[0] == 109
    ensures Ascii("namespace")[1] == 97 && |Ascii("namespace")| == 9
    ensures Ascii("name")[1] == 97 && |Ascii("name")| == 4
    ensures Ascii("children")[0] == 99
    ensures Ascii("templateContent")[0] == 116
    ensures Ascii("shadowMode")[0] == 115
    ensures Ascii("value")[0] == 118
    ensures |Ascii("text")| == 4 && |Ascii("comment")| == 7 && |Ascii("element")| == 7
    ensures Ascii("comment")[0] == 99 && Ascii("element")[0] == 101
    ensures Ascii("namespace")[0] == 110 == Ascii("name")[0]
  {
  }

  /** Lookup in a list of distinct keys finds the member at its position. */
  lemma {:induction false} LookupAt(members: seq<Member>, i: nat)
    requires i < |members| && forall j :: 0 <= j < i ==> members[j].key != members[i].key
    ensures Lookup(members, members[i].key) == Some(members[i].value)
  {
    if i > 0 {
      LookupAt(members[1..], i - 1);
    }
  }

  lemma {:induction false} LookupMissing(members: seq<Member>, key: Str)
    requires forall j :: 0 <= j < |members| ==> members[j].key != key
    ensures Lookup(members, key) == None
  {
    if members != [] {
      LookupMissing(members[1..], key);
    }
  }

  lemma {:induction false} ValueOfRecord(r: RepairNode)
    ensures FromValue(ToValue(r)) == Some(r)
    ensures Normal(ToValue(r)) == ToValue(r)
    decreases r, 0
  {
    DistinctKeys();
    match r
    case RepairText(value) => LeafValue(r);
    case RepairComment(value) => LeafValue(r);
    case RepairElement(marker, ns, name, children, templateContent, shadowMode) =>
      ValuesOfRecords(children);
      ValuesOfRecords(templateContent);
      ElementFields(r);
      NormalFields(r);
  }

  lemma {:induction false} ValuesOfRecords(rs: seq<RepairNode>)
    ensures FromValues(ToValues(rs)) == Some(rs)
    ensures NormalItems(ToValues(rs)) == ToValues(rs)
    decreases rs, 1
  {
    if rs != [] {
      ValueOfRecord(rs[0]);
      ValuesOfRecords(rs[1..]);
      assert ToValues(rs)[0] == ToValue(rs[0]) && ToValues(rs)[1..] == ToValues(rs[1..]);
      assert rs == [rs[0]] + rs[1..];
    }
  }

  lemma LeafValue(r: RepairNode)
    requires r.RepairText? || r.RepairComment?
    ensures FromValue(ToValue(r)) == Some(r)
    ensures Normal(ToValue(r)) == ToValue(r)
  {
    DistinctKeys();
    var ms := ToValue(r).members;
    LookupAt(ms, 0);
    LookupAt(ms, 1);
    assert ms[1..] == [ms[1]] && ms[1..][1..] == [];
    NormalStrings(ms);
  }

  lemma ElementFields(r: RepairNode)
    requires r.RepairElement?
    ensures var ms := ToValue(r).members;
      && FieldString(ms, "kind") == Some(Ascii("element"))
      && FieldString(ms, "marker") == Some(r.marker)
      && FieldString(ms, "namespace") == Some(r.ns)
      && FieldString(ms, "name") == Some(r.name)
      && Lookup(ms, Ascii("children")) == Some(Array(ToValues(r.children)))
      && Lookup(ms, Ascii("templateContent")) == Some(Array(ToValues(r.templateContent)))
      && FieldString(ms, "shadowMode") == r.shadowMode
  {
    hide ToValues, Lookup, Ascii;
    NameFields(r);
    ContentFields(r);
  }

  lemma NameFields(r: RepairNode)
    requires r.RepairElement?
    ensures var ms := ToValue(r).members;
      && FieldString(ms, "kind") == Some(Ascii("element"))
      && FieldString(ms, "marker") == Some(r.marker)
      && FieldString(ms, "namespace") == Some(r.ns)
      && FieldString(ms, "name") == Some(r.name)
  {
    hide ToValues;
    DistinctKeys();
    var ms := ToValue(r).members;
    LookupAt(ms, 0);
    LookupAt(ms, 1);
    LookupAt(ms, 2);
    LookupAt(ms, 3);
  }

  lemma ContentFields(r: RepairNode)
    requires r.RepairElement?
    ensures var ms := ToValue(r).members;
      && Lookup(ms, Ascii("children")) == Some(Array(ToValues(r.children)))
      && Lookup(ms, Ascii("templateContent")) == Some(Array(ToValues(r.templateContent)))
      && FieldString(ms, "shadowMode") == r.shadowMode
  {
    hide ToValues;
    DistinctKeys();
    var ms := ToValue(r).members;
    LookupAt(ms, 4);
    LookupAt(ms, 5);
    if r.shadowMode.Some? {
      LookupAt(ms, 6);
    } else {
      LookupMissing(ms, Ascii("shadowMode"));
    }
  }

  predicate Settled(v: Value) {
    Normal(v) == v
  }

  lemma {:induction false} NormalStrings(members: seq<Member>)
    requires forall i :: 0 <= i < |members| ==> Settled(members[i].value)
    ensures NormalMembers(members) == members
  {
    if members != [] {
      NormalStrings(members[1..]);
      assert Settled(members[0].value);
      assert members == [members[0]] + members[1..];
    }
  }

  lemma NormalFields(r: RepairNode)
    requires r.RepairElement?
    requires NormalItems(ToValues(r.children)) == ToValues(r.children)
    requires NormalItems(ToValues(r.templateContent)) == ToValues(r.templateContent)
    ensures Normal(ToValue(r)) == ToValue(r)
  {
    hide ToValues, NormalItems;
    NormalStrings(ToValue(r).members);
  }

  /** Reading the printed record back gives the record. */
  lemma RecordRoundTrip(r: RepairNode)
    ensures var parsed := ParseText(Print(Document(r), ScriptJson));
      parsed.Some? && FromDocument(parsed.value) == Some(r)
  {
    hide Print, ParseText, ToValue, FromValue;
    TextRoundTrip(Document(r), ScriptJson);
    ValueOfRecord(r);
    NormalStrings(Document(r).members);
    LookupAt(Document(r).members, 0);
    assert Settled(ToValue(r));
  }

  // --- The printed record is inert inside a script element ---

  /** Free of `<`, `>`, `&` and the two line separators. */
  predicate Inert(s: Str) {
    forall i :: 0 <= i < |s| ==> s[i] != 60 && s[i] != 62 && s[i] != 38 && s[i] != 0x2028 && s[i] != 0x2029
  }

  lemma {:induction false} EscapedInert(s: Str)
    ensures Inert(Escaped(s, ScriptJson))
  {
    if s != [] {
      EscapedInert(s[1..]);
      UnitInert(s[0]);
    }
  }

  lemma UnitInert(u: CodeUnit)
    ensures Inert(EscapeUnit(u, ScriptJson))
  {
    if JsonEscape(u).Some? {
      JsonEscapeInert(u);
    } else if ScriptDataEscape(u).Some? {
      ScriptEscapeInert(u);
    }
  }

  lemma JsonEscapeInert(u: CodeUnit)
    requires JsonEscape(u).Some?
    ensures Inert(JsonEscape(u).value)
  {
  }

  lemma ScriptEscapeInert(u: CodeUnit)
    requires ScriptDataEscape(u).Some?
    ensures Inert(ScriptDataEscape(u).value)
  {
  }

  lemma InertConcat(a: Str, b: Str)
    requires Inert(a) && Inert(b)
    ensures Inert(a + b)
  {
  }

  lemma QuotedInert(s: Str)
    ensures Inert(Quoted(s, ScriptJson))
  {
    hide Escaped;
    EscapedInert(s);
    InertConcat([34], Escaped(s, ScriptJson));
    InertConcat([34] + Escaped(s, ScriptJson), [34]);
  }

  lemma {:induction false} PrintInert(v: Value)
    ensures Inert(Print(v, ScriptJson))
    decreases v, 0
  {
    hide Quoted, ItemsText, MembersText;
    match v
    case String(s) => QuotedInert(s);
    case Array(items) =>
      ItemsInert(items, true);
      InertConcat([91], ItemsText(items, true, ScriptJson));
      InertConcat([91] + ItemsText(items, true, ScriptJson), [93]);
    case Object(members) =>
      MembersInert(members, true);
      InertConcat([123], MembersText(members, true, ScriptJson));
      InertConcat([123] + MembersText(members, true, ScriptJson), [125]);
    case _ =>
  }

  lemma {:induction false} ItemsInert(items: seq<Value>, first: bool)
    ensures Inert(ItemsText(items, first, ScriptJson))
    decreases items, 1
  {
    hide Print;
    if items != [] {
      PrintInert(items[0]);
      ItemsInert(items[1..], false);
      InertConcat(Comma(first), Print(items[0], ScriptJson));
      InertConcat(Comma(first) + Print(items[0], ScriptJson), ItemsText(items[1..], false, ScriptJson));
    }
  }

  lemma {:induction false} MembersInert(members: seq<Member>, first: bool)
    ensures Inert(MembersText(members, first, ScriptJson))
    decreases members, 1
  {
    hide Print, Quoted;
    if members != [] {
      var m := members[0];
      QuotedInert(m.key);
      PrintInert(m.value);
      MembersInert(members[1..], false);
      InertConcat(Quoted(m.key, ScriptJson), [58]);
      InertConcat(Quoted(m.key, ScriptJson) + [58], Print(m.value, ScriptJson));
      InertConcat(Comma(first), MemberText(m, ScriptJson));
      InertConcat(Comma(first) + MemberText(m, ScriptJson), MembersText(members[1..], false, ScriptJson));
    }
  }
}
