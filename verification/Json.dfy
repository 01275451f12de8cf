/**
 JSON text: the recursive printer that the stack-driven serializers refine, and a
 parser for RFC 8259 that reads every printed text back.
 */
module Json {
  import opened Text
  import opened Decimal
  import opened Escape

  /** A JavaScript value as `writeJson` classifies it. `NonFinite` is a number that is
      not finite and `Unserializable` anything else without a JSON form. */
  datatype Value =
    | Null
    | Bool(b: bool)
    | Number(n: int)
    | NonFinite
    | Unserializable
    | String(s: Str)
    | Array(items: seq<Value>)
    | Object(members: seq<Member>)

  datatype Member = Member(key: Str, value: Value)

  /** The value a reader gets back: values without a JSON form become null. */
  function Normal(v: Value): Value {
    match v
    case NonFinite => Null
    case Unserializable => Null
    case Array(items) => Array(NormalItems(items))
    case Object(members) => Object(NormalMembers(members))
    case _ => v
  }

  function NormalItems(items: seq<Value>): seq<Value> {
    if items == [] then [] else [Normal(items[0])] + NormalItems(items[1..])
  }

  function NormalMembers(members: seq<Member>): seq<Member> {
    if members == [] then []
    else [Member(members[0].key, Normal(members[0].value))] + NormalMembers(members[1..])
  }

  /** The value of the first member with the key. */
  function Lookup(members: seq<Member>, key: Str): Option<Value> {
    if members == [] then None
    else if members[0].key == key then Some(members[0].value)
    else Lookup(members[1..], key)
  }

  // --- Recursive printer ---

  function Quoted(s: Str, mode: Mode): Str {
    [34] + Escaped(s, mode) + [34]
  }

  function Print(v: Value, mode: Mode): Str {
    match v
    case Null => Ascii("null")
    case Bool(b) => if b then Ascii("true") else Ascii("false")
    case Number(n) => IntText(n)
    case NonFinite => Ascii("null")
    case Unserializable => Ascii("null")
    case String(s) => Quoted(s, mode)
    case Array(items) => [91] + ItemsText(items, true, mode) + [93]
    case Object(members) => [123] + MembersText(members, true, mode) + [125]
  }

  /** Separator before an element. */
  function Comma(first: bool): Str {
    if first then [] else [44]
  }

  function ItemsText(items: seq<Value>, first: bool, mode: Mode): Str {
    if items == [] then []
    else Comma(first) + Print(items[0], mode) + ItemsText(items[1..], false, mode)
  }

  function MembersText(members: seq<Member>, first: bool, mode: Mode): Str {
    if members == [] then []
    else Comma(first) + MemberText(members[0], mode) + MembersText(members[1..], false, mode)
  }

  function MemberText(m: Member, mode: Mode): Str {
    Quoted(m.key, mode) + [58] + Print(m.value, mode)
  }

  // --- Parser, RFC 8259 (numbers: integer literals) ---

  datatype Parsed<+T> = Good(value: T, rest: Str) | Bad

  predicate IsSpace(u: CodeUnit) {
    u == 32 || u == 9 || u == 10 || u == 13
  }

  function SkipSpace(s: Str): (r: Str)
    ensures |r| <= |s|
  {
    if s != [] && IsSpace(s[0]) then SkipSpace(s[1..]) else s
  }

  function HexValue(u: CodeUnit): (r: Option<int>)
    ensures r.Some? ==> 0 <= r.value < 16
  {
    if 48 <= u <= 57 then Some(u - 48)
    else if 97 <= u <= 102 then Some(u - 87)
    else if 65 <= u <= 70 then Some(u - 55)
    else None
  }

  function Hex4(s: Str): (r: Option<CodeUnit>)
    requires |s| >= 4
  {
    var a, b, c, d := HexValue(s[0]), HexValue(s[1]), HexValue(s[2]), HexValue(s[3]);
    if a.Some? && b.Some? && c.Some? && d.Some?
    then Some(a.value * 0x1000 + b.value * 0x100 + c.value * 0x10 + d.value)
    else None
  }

  /** One character of a string literal, section 7. */
  function ParseUnit(s: Str): (r: Parsed<CodeUnit>)
    requires s != [] && s[0] != 34
    ensures r.Good? ==> |r.rest| < |s|
  {
    if s[0] < 32 then Bad
    else if s[0] != 92 then Good(s[0], s[1..])
    else if |s| < 2 then Bad
    else if s[1] == 34 || s[1] == 92 || s[1] == 47 then Good(s[1], s[2..])
    else if s[1] == 98 then Good(8, s[2..])
    else if s[1] == 102 then Good(12, s[2..])
    else if s[1] == 110 then Good(10, s[2..])
    else if s[1] == 114 then Good(13, s[2..])
    else if s[1] == 116 then Good(9, s[2..])
    else if s[1] == 117 && |s| >= 6 && Hex4(s[2..]).Some? then Good(Hex4(s[2..]).value, s[6..])
    else Bad
  }

  /** The rest of a string literal after its opening quote. */
  function ParseChars(s: Str): (r: Parsed<Str>)
    ensures r.Good? ==> |r.rest| < |s|
    decreases |s|
  {
    if s == [] then Bad
    else if s[0] == 34 then Good([], s[1..])
    else
      match ParseUnit(s)
      case Bad => Bad
      case Good(u, t) =>
        match ParseChars(t)
        case Bad => Bad
        case Good(us, rest) => Good([u] + us, rest)
  }

  function DigitRun(s: Str): (n: nat)
    ensures n <= |s| && forall i :: 0 <= i < n ==> IsDigit(s[i])
    ensures n < |s| ==> !IsDigit(s[n])
  {
    if s != [] && IsDigit(s[0]) then 1 + DigitRun(s[1..]) else 0
  }

  function ParseNatural(s: Str): (r: Parsed<nat>)
    ensures r.Good? ==> |r.rest| < |s|
  {
    var n := DigitRun(s);
    if n == 0 || (n > 1 && s[0] == 48) then Bad
    else if n < |s| && (s[n] == 46 || s[n] == 69 || s[n] == 101) then Bad
    else Good(ValueOf(s[..n]), s[n..])
  }

  function ParseNumber(s: Str): (r: Parsed<Value>)
    requires s != []
    ensures r.Good? ==> |r.rest| < |s|
  {
    if s[0] == 45 then
      match ParseNatural(s[1..])
      case Bad => Bad
      case Good(n, rest) => Good(Number(-(n as int)), rest)
    else
      match ParseNatural(s)
      case Bad => Bad
      case Good(n, rest) => Good(Number(n), rest)
  }

  function ParseLiteral(s: Str): (r: Parsed<Value>)
    ensures r.Good? ==> |r.rest| < |s|
  {
    if Ascii("null") <= s then Good(Null, s[4..])
    else if Ascii("true") <= s then Good(Bool(true), s[4..])
    else if Ascii("false") <= s then Good(Bool(false), s[5..])
    else Bad
  }

  function ParseValue(s: Str): (r: Parsed<Value>)
    ensures r.Good? ==> |r.rest| < |s|
    decreases |s|, 0
  {
    var t := SkipSpace(s);
    if t == [] then Bad
    else if t[0] == 34 then
      match ParseChars(t[1..])
      case Bad => Bad
      case Good(us, rest) => Good(String(us), rest)
    else if t[0] == 91 then
      match ParseItems(t[1..], true)
      case Bad => Bad
      case Good(items, rest) => Good(Array(items), rest)
    else if t[0] == 123 then
      match ParseMembers(t[1..], true)
      case Bad => Bad
      case Good(members, rest) => Good(Object(members), rest)
    else if t[0] == 45 || IsDigit(t[0]) then ParseNumber(t)
    else ParseLiteral(t)
  }

  /** Elements up to the closing bracket. */
  function ParseItems(s: Str, first: bool): (r: Parsed<seq<Value>>)
    ensures r.Good? ==> |r.rest| < |s|
    decreases |s|, 1
  {
    var t := SkipSpace(s);
    if t == [] then Bad
    else if t[0] == 93 then Good([], t[1..])
    else if !first && t[0] != 44 then Bad
    else
      match ParseValue(if first then t else t[1..])
      case Bad => Bad
      case Good(v, u) =>
        match ParseItems(u, false)
        case Bad => Bad
        case Good(vs, rest) => Good([v] + vs, rest)
  }

  /** Members up to the closing brace. */
  function ParseMembers(s: Str, first: bool): (r: Parsed<seq<Member>>)
    ensures r.Good? ==> |r.rest| < |s|
    decreases |s|, 2
  {
    var t := SkipSpace(s);
    if t == [] then Bad
    else if t[0] == 125 then Good([], t[1..])
    else if !first && t[0] != 44 then Bad
    else
      match ParseMember(if first then t else t[1..])
      case Bad => Bad
      case Good(m, u) =>
        match ParseMembers(u, false)
        case Bad => Bad
        case Good(ms, rest) => Good([m] + ms, rest)
  }

  function ParseMember(s: Str): (r: Parsed<Member>)
    ensures r.Good? ==> |r.rest| < |s|
    decreases |s|, 1
  {
    var t := SkipSpace(s);
    if t == [] || t[0] != 34 then Bad
    else
      match ParseChars(t[1..])
      case Bad => Bad
      case Good(key, rest) =>
        var u := SkipSpace(rest);
        if u == [] || u[0] != 58 then Bad
        else
          match ParseValue(u[1..])
          case Bad => Bad
          case Good(v, after) => Good(Member(key, v), after)
  }

  /** A complete JSON text: one value and nothing but white space after it. */
  function ParseText(s: Str): Option<Value> {
    match ParseValue(s)
    case Bad => None
    case Good(v, rest) => if SkipSpace(rest) == [] then Some(v) else None
  }

  // --- Round trip ---

  predicate JsonMode(mode: Mode) {
    mode.Json? || mode.ScriptJson?
  }

  /** One escaped unit parses back to itself and leaves what follows it. */
  lemma UnitRoundTrip(u: CodeUnit, mode: Mode, rest: Str)
    requires JsonMode(mode)
    ensures var s := EscapeUnit(u, mode) + rest;
      s[0] != 34 && ParseUnit(s) == Good(u, rest)
  {
    if JsonEscape(u).Some? {
      JsonEscapeRoundTrip(u, rest);
    } else if mode.ScriptJson? && ScriptDataEscape(u).Some? {
      ScriptEscapeRoundTrip(u, rest);
    } else {
      assert ([u] + rest)[1..] == rest;
    }
  }

  lemma JsonEscapeRoundTrip(u: CodeUnit, rest: Str)
    requires JsonEscape(u).Some?
    ensures var s := JsonEscape(u).value + rest;
      s[0] != 34 && ParseUnit(s) == Good(u, rest)
  {
    var e := JsonEscape(u).value;
    var s := e + rest;
    if |e| == 2 {
      assert s[2..] == rest;
    } else {
      assert e == [92, 117, 48, 48, HexDigit(u / 16), HexDigit(u % 16)];
      UnicodeEscapeRoundTrip(48, 48, HexDigit(u / 16), HexDigit(u % 16), u, rest);
    }
  }

  lemma ScriptEscapeRoundTrip(u: CodeUnit, rest: Str)
    requires ScriptDataEscape(u).Some?
    ensures var s := ScriptDataEscape(u).value + rest;
      s[0] != 34 && ParseUnit(s) == Good(u, rest)
  {
    var e := ScriptDataEscape(u).value;
    assert e == [92, 117, e[2], e[3], e[4], e[5]];
    UnicodeEscapeRoundTrip(e[2], e[3], e[4], e[5], u, rest);
  }

  lemma UnicodeEscapeRoundTrip(a: CodeUnit, b: CodeUnit, c: CodeUnit, d: CodeUnit, u: CodeUnit, rest: Str)
    requires Hex4([a, b, c, d]) == Some(u)
    ensures var s := [92, 117, a, b, c, d] + rest;
      ParseUnit(s) == Good(u, rest)
  {
    var s := [92, 117, a, b, c, d] + rest;
    assert s[2..][0] == a && s[2..][1] == b && s[2..][2] == c && s[2..][3] == d;
    assert s[6..] == rest;
  }

  lemma {:induction false} CharsRoundTrip(v: Str, mode: Mode, rest: Str)
    requires JsonMode(mode)
    ensures ParseChars(Escaped(v, mode) + ([34] + rest)) == Good(v, rest)
  {
    hide Replacement, EscapeUnit, ParseUnit;
    if v == [] {
      assert Escaped(v, mode) + ([34] + rest) == [34] + rest;
      assert ([34] + rest)[1..] == rest;
    } else {
      var tail := Escaped(v[1..], mode) + ([34] + rest);
      CharsRoundTrip(v[1..], mode, rest);
      UnitRoundTrip(v[0], mode, tail);
      ConcatAssociates(EscapeUnit(v[0], mode), Escaped(v[1..], mode), [34] + rest);
      assert v == [v[0]] + v[1..];
    }
  }

  lemma QuotedRoundTrip(v: Str, mode: Mode, rest: Str)
    requires JsonMode(mode)
    ensures var s := Quoted(v, mode) + rest;
      s[0] == 34 && ParseChars(s[1..]) == Good(v, rest)
  {
    hide Escaped, ParseChars;
    var s := Quoted(v, mode) + rest;
    CharsRoundTrip(v, mode, rest);
    assert s[1..] == Escaped(v, mode) + ([34] + rest);
  }

  // What may follow a value without extending it.
  predicate Stops(rest: Str) {
    rest == [] || (!IsDigit(rest[0]) && rest[0] != 46 && rest[0] != 69 && rest[0] != 101)
  }

  lemma {:induction false} DigitRunOf(digits: Str, rest: Str)
    requires forall i :: 0 <= i < |digits| ==> IsDigit(digits[i])
    requires rest == [] || !IsDigit(rest[0])
    ensures DigitRun(digits + rest) == |digits|
  {
    if digits == [] {
      assert digits + rest == rest;
    } else {
      assert (digits + rest)[1..] == digits[1..] + rest;
      DigitRunOf(digits[1..], rest);
    }
  }

  lemma NaturalRoundTrip(n: nat, rest: Str)
    requires Stops(rest)
    ensures ParseNatural(Digits(n) + rest) == Good(n, rest)
  {
    hide Digits, ValueOf, DigitRun;
    var s := Digits(n) + rest;
    DigitRunOf(Digits(n), rest);
    DigitsDenote(n);
    assert s[..|Digits(n)|] == Digits(n) && s[|Digits(n)|..] == rest;
    assert s[0] == Digits(n)[0];
  }

  lemma NumberRoundTrip(n: int, rest: Str)
    requires Stops(rest)
    ensures ParseValue(IntText(n) + rest) == Good(Number(n), rest)
  {
    hide Digits, ParseNatural, ParseItems, ParseMembers, ParseChars, ParseLiteral;
    var s := IntText(n) + rest;
    assert s[0] == 45 || IsDigit(s[0]);
    assert SkipSpace(s) == s;
    if n < 0 {
      NaturalRoundTrip(-n, rest);
      assert s[1..] == Digits(-n) + rest;
    } else {
      NaturalRoundTrip(n, rest);
    }
  }

  lemma LiteralRoundTrip(v: Value, mode: Mode, rest: Str)
    requires v.Null? || v.Bool? || v.NonFinite? || v.Unserializable?
    ensures ParseValue(Print(v, mode) + rest) == Good(Normal(v), rest)
  {
    hide ParseNumber, ParseItems, ParseMembers, ParseChars;
    var t := Print(v, mode);
    var s := t + rest;
    assert s[0] == t[0] && s[1] == t[1];
    assert SkipSpace(s) == s;
    assert s[..|t|] == t && s[|t|..] == rest;
    LiteralPrefix(t, rest);
  }

  lemma LiteralPrefix(t: Str, rest: Str)
    requires t == Ascii("null") || t == Ascii("true") || t == Ascii("false")
    ensures ParseLiteral(t + rest) ==
      Good(if t == Ascii("null") then Null else Bool(t == Ascii("true")), rest)
  {
    var s := t + rest;
    assert t <= s && s[|t|..] == rest && s[0] == t[0];
    assert Ascii("null")[0] == 110 && Ascii("true")[0] == 116 && Ascii("false")[0] == 102;
  }

  lemma StringRoundTrip(v: Str, mode: Mode, rest: Str)
    requires JsonMode(mode)
    ensures ParseValue(Quoted(v, mode) + rest) == Good(String(v), rest)
  {
    hide Escaped, ParseItems, ParseMembers, ParseChars, ParseNumber, ParseLiteral;
    QuotedRoundTrip(v, mode, rest);
    assert SkipSpace(Quoted(v, mode) + rest) == Quoted(v, mode) + rest;
  }

  /** Every printed text is parsed back to the value, whatever follows it. */
  lemma {:induction false} ValueRoundTrip(v: Value, mode: Mode, rest: Str)
    requires JsonMode(mode) && Stops(rest)
    ensures ParseValue(Print(v, mode) + rest) == Good(Normal(v), rest)
    decreases v, 0
  {
    match v
    case Number(n) => NumberRoundTrip(n, rest);
    case String(s) => StringRoundTrip(s, mode, rest);
    case Array(items) =>
      ItemsRoundTrip(items, true, mode, rest);
      ArrayUnfolds(items, mode, rest);
    case Object(members) =>
      MembersRoundTrip(members, true, mode, rest);
      ObjectUnfolds(members, mode, rest);
    case _ => LiteralRoundTrip(v, mode, rest);
  }

  lemma ArrayUnfolds(items: seq<Value>, mode: Mode, rest: Str)
    ensures ParseValue(Print(Array(items), mode) + rest) ==
      match ParseItems(ItemsText(items, true, mode) + ([93] + rest), true)
      case Bad => Bad
      case Good(vs, after) => Good(Array(vs), after)
  {
    hide ItemsText, ParseItems, ParseMembers, ParseChars, ParseNumber, ParseLiteral;
    var s := Print(Array(items), mode) + rest;
    assert s[0] == 91 && SkipSpace(s) == s;
    assert s[1..] == ItemsText(items, true, mode) + ([93] + rest);
  }

  lemma ObjectUnfolds(members: seq<Member>, mode: Mode, rest: Str)
    ensures ParseValue(Print(Object(members), mode) + rest) ==
      match ParseMembers(MembersText(members, true, mode) + ([125] + rest), true)
      case Bad => Bad
      case Good(ms, after) => Good(Object(ms), after)
  {
    hide MembersText, ParseItems, ParseMembers, ParseChars, ParseNumber, ParseLiteral;
    var s := Print(Object(members), mode) + rest;
    assert s[0] == 123 && SkipSpace(s) == s;
    assert s[1..] == MembersText(members, true, mode) + ([125] + rest);
  }

  lemma {:induction false} ItemsRoundTrip(items: seq<Value>, first: bool, mode: Mode, rest: Str)
    requires JsonMode(mode)
    ensures ParseItems(ItemsText(items, first, mode) + ([93] + rest), first) == Good(NormalItems(items), rest)
    decreases items, 1
  {
    if items == [] {
      assert ItemsText(items, first, mode) + ([93] + rest) == [93] + rest;
      assert ([93] + rest)[1..] == rest;
    } else {
      var after := ItemsText(items[1..], false, mode) + ([93] + rest);
      ItemsRoundTrip(items[1..], false, mode, rest);
      assert Stops(after);
      ValueRoundTrip(items[0], mode, after);
      ItemsUnfold(items, first, mode, rest);
    }
  }

  lemma ItemsUnfold(items: seq<Value>, first: bool, mode: Mode, rest: Str)
    requires items != []
    ensures var after := ItemsText(items[1..], false, mode) + ([93] + rest);
      ParseItems(ItemsText(items, first, mode) + ([93] + rest), first) ==
        match ParseValue(Print(items[0], mode) + after)
        case Bad => Bad
        case Good(v, u) =>
          match ParseItems(u, false)
          case Bad => Bad
          case Good(vs, end) => Good([v] + vs, end)
  {
    hide Print, ParseValue, ParseItems;
    var text, tail := Print(items[0], mode), ItemsText(items[1..], false, mode);
    ListText(Comma(first), text, tail, [93] + rest);
    ValueStart(items[0], mode);
    ParseItemsStep(text + (tail + ([93] + rest)), first);
  }

  /** The text of a list, regrouped after its first element. */
  lemma ListText(comma: Str, text: Str, tail: Str, rest: Str)
    ensures comma + text + tail + rest == comma + (text + (tail + rest))
  {
  }

  lemma ParseItemsStep(t: Str, first: bool)
    requires t != [] && !IsSpace(t[0]) && t[0] != 93
    ensures ParseItems(Comma(first) + t, first) ==
      match ParseValue(t)
      case Bad => Bad
      case Good(v, u) =>
        match ParseItems(u, false)
        case Bad => Bad
        case Good(vs, end) => Good([v] + vs, end)
  {
    hide ParseValue;
    var s := Comma(first) + t;
    assert s[0] == (if first then t[0] else 44) && (if first then s else s[1..]) == t;
  }

  /** A printed value starts with neither white space, a comma nor a closing bracket. */
  lemma ValueStart(v: Value, mode: Mode)
    ensures Print(v, mode) != []
    ensures var u := Print(v, mode)[0]; u < 0x80 && !IsSpace(u) && u != 44 && u != 93 && u != 125
    ensures Print(v, mode)[|Print(v, mode)| - 1] < 0x80
  {
    hide ItemsText, MembersText, Escaped;
  }

  lemma {:induction false} MembersRoundTrip(members: seq<Member>, first: bool, mode: Mode, rest: Str)
    requires JsonMode(mode)
    ensures ParseMembers(MembersText(members, first, mode) + ([125] + rest), first) ==
      Good(NormalMembers(members), rest)
    decreases members, 1
  {
    if members == [] {
      assert MembersText(members, first, mode) + ([125] + rest) == [125] + rest;
      assert ([125] + rest)[1..] == rest;
    } else {
      var m := members[0];
      var after := MembersText(members[1..], false, mode) + ([125] + rest);
      MembersRoundTrip(members[1..], false, mode, rest);
      assert Stops(after);
      ValueRoundTrip(m.value, mode, after);
      MemberUnfolds(m, mode, after);
      MembersUnfold(members, first, mode, rest);
    }
  }

  lemma MemberUnfolds(m: Member, mode: Mode, after: Str)
    requires JsonMode(mode)
    ensures ParseMember(MemberText(m, mode) + after) ==
      match ParseValue(Print(m.value, mode) + after)
      case Bad => Bad
      case Good(v, end) => Good(Member(m.key, v), end)
  {
    hide Quoted, Print, ParseValue, ParseChars;
    var tail := [58] + (Print(m.value, mode) + after);
    var s := Quoted(m.key, mode) + tail;
    assert MemberText(m, mode) + after == s;
    QuotedRoundTrip(m.key, mode, tail);
    assert SkipSpace(s) == s && SkipSpace(tail) == tail;
    assert tail[1..] == Print(m.value, mode) + after;
  }

  lemma MembersUnfold(members: seq<Member>, first: bool, mode: Mode, rest: Str)
    requires members != []
    ensures var after := MembersText(members[1..], false, mode) + ([125] + rest);
      ParseMembers(MembersText(members, first, mode) + ([125] + rest), first) ==
        match ParseMember(MemberText(members[0], mode) + after)
        case Bad => Bad
        case Good(m, u) =>
          match ParseMembers(u, false)
          case Bad => Bad
          case Good(ms, end) => Good([m] + ms, end)
  {
    hide Print, ParseMember, ParseMembers, MemberText;
    var text, tail := MemberText(members[0], mode), MembersText(members[1..], false, mode);
    ListText(Comma(first), text, tail, [125] + rest);
    MemberStart(members[0], mode);
    ParseMembersStep(text + (tail + ([125] + rest)), first);
  }

  lemma MemberStart(m: Member, mode: Mode)
    ensures MemberText(m, mode) != [] && MemberText(m, mode)[0] == 34
  {
    hide Print, Escaped;
  }

  lemma ParseMembersStep(t: Str, first: bool)
    requires t != [] && t[0] == 34
    ensures ParseMembers(Comma(first) + t, first) ==
      match ParseMember(t)
      case Bad => Bad
      case Good(m, u) =>
        match ParseMembers(u, false)
        case Bad => Bad
        case Good(ms, end) => Good([m] + ms, end)
  {
    hide ParseMember;
    var s := Comma(first) + t;
    assert s[0] == (if first then t[0] else 44) && (if first then s else s[1..]) == t;
  }

  /** A printed JSON text denotes exactly the value that was printed. */
  lemma TextRoundTrip(v: Value, mode: Mode)
    requires JsonMode(mode)
    ensures ParseText(Print(v, mode)) == Some(Normal(v))
  {
    hide Print, ParseValue;
    ValueRoundTrip(v, mode, []);
    assert Print(v, mode) + [] == Print(v, mode);
  }
}
