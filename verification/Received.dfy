/** What the host reads from the bytes of an observation. */
module Received {
  import opened Text
  import opened Escape
  import opened Json
  import opened Utf8

  // --- Repairing and joining text ---

  lemma {:induction false} RepairedConcat(a: Str, b: Str)
    requires !Splits(a, b)
    ensures Repaired(a + b) == Repaired(a) + Repaired(b)
  {
    if a == [] {
      assert a + b == b;
    } else {
      FrontOfConcat(a, b);
      var rest := a[FirstUnits(a)..];
      RepairedConcat(rest, b);
      UnitsOfFirst(a);
      UnitsOfFirst(a + b);
      ConcatAssociates(Units(FirstScalar(a)), Repaired(rest), Repaired(b));
    }
  }

  ghost predicate AllAscii(s: Str) {
    forall i :: 0 <= i < |s| ==> s[i] < 0x80
  }

  lemma {:induction false} RepairedAscii(s: Str)
    requires AllAscii(s)
    ensures Repaired(s) == s
  {
    if s != [] {
      RepairedAscii(s[1..]);
      assert s == [s[0]] + s[1..];
    }
  }

  // --- Escaping commutes with repairing ---

  /** A surrogate is never escaped, and what replaces a unit is ASCII. */
  lemma UnitsAndEscapes(u: CodeUnit, mode: Mode)
    requires JsonMode(mode)
    ensures IsHigh(u) || IsLow(u) || u == REPLACEMENT ==> EscapeUnit(u, mode) == [u]
    ensures EscapeUnit(u, mode) == [u] || AllAscii(EscapeUnit(u, mode))
    ensures EscapeUnit(u, mode) != []
  {
  }

  lemma EscapedStart(s: Str, mode: Mode)
    requires JsonMode(mode) && s != []
    ensures Escaped(s, mode) != [] && (IsLow(Escaped(s, mode)[0]) <==> IsLow(s[0]))
  {
    hide Escaped, EscapeUnit;
    UnitsAndEscapes(s[0], mode);
    EscapedStep(s, mode);
  }

  lemma EscapedStep(s: Str, mode: Mode)
    requires s != []
    ensures Escaped(s, mode) == EscapeUnit(s[0], mode) + Escaped(s[1..], mode)
  {
  }

  lemma OrdinaryUnit(u: CodeUnit, mode: Mode)
    requires JsonMode(mode) && !IsHigh(u) && !IsLow(u)
    ensures Repaired(EscapeUnit(u, mode)) == EscapeUnit(u, mode)
    ensures !IsHigh(EscapeUnit(u, mode)[|EscapeUnit(u, mode)| - 1])
  {
    hide EscapeUnit;
    UnitsAndEscapes(u, mode);
    if AllAscii(EscapeUnit(u, mode)) {
      RepairedAscii(EscapeUnit(u, mode));
    } else {
      assert [u][1..] == [];
    }
  }

  lemma {:induction false} RepairedEscaped(s: Str, mode: Mode)
    requires JsonMode(mode)
    ensures Repaired(Escaped(s, mode)) == Escaped(Repaired(s), mode)
  {
    if s != [] {
      RepairedEscaped(s[FirstUnits(s)..], mode);
      if StartsWithPair(s) {
        PairEscaped(s, mode);
      } else if IsHigh(s[0]) || IsLow(s[0]) {
        LoneEscaped(s, mode);
      } else {
        OrdinaryEscaped(s, mode);
      }
    }
  }

  lemma PairEscaped(s: Str, mode: Mode)
    requires JsonMode(mode) && StartsWithPair(s) && Repaired(Escaped(s[2..], mode)) == Escaped(Repaired(s[2..]), mode)
    ensures Repaired(Escaped(s, mode)) == Escaped(Repaired(s), mode)
  {
    hide Escaped, Repaired;
    var pair, rest := [s[0], s[1]], s[2..];
    assert s == pair + rest;
    EscapedPair(s[0], s[1], rest, mode);
    EscapedPair(s[0], s[1], Repaired(rest), mode);
    RepairedPair(s[0], s[1], rest);
    RepairedPair(s[0], s[1], Escaped(rest, mode));
  }

  lemma EscapedPair(high: CodeUnit, low: CodeUnit, rest: Str, mode: Mode)
    requires JsonMode(mode) && IsHigh(high) && IsLow(low)
    ensures Escaped([high, low] + rest, mode) == [high, low] + Escaped(rest, mode)
  {
    hide Escaped, EscapeUnit;
    UnitsAndEscapes(high, mode);
    UnitsAndEscapes(low, mode);
    var all := [high, low] + rest;
    EscapedStep(all, mode);
    EscapedStep(all[1..], mode);
    assert all[1..][1..] == rest;
  }

  lemma RepairedPair(high: CodeUnit, low: CodeUnit, rest: Str)
    requires IsHigh(high) && IsLow(low)
    ensures Repaired([high, low] + rest) == [high, low] + Repaired(rest)
  {
    var all := [high, low] + rest;
    assert all[..2] == [high, low] && all[2..] == rest;
  }

  lemma LoneEscaped(s: Str, mode: Mode)
    requires JsonMode(mode) && s != [] && !StartsWithPair(s) && (IsHigh(s[0]) || IsLow(s[0]))
    requires Repaired(Escaped(s[1..], mode)) == Escaped(Repaired(s[1..]), mode)
    ensures Repaired(Escaped(s, mode)) == Escaped(Repaired(s), mode)
  {
    hide Escaped, EscapeUnit;
    UnitsAndEscapes(s[0], mode);
    UnitsAndEscapes(REPLACEMENT, mode);
    var rest := Escaped(s[1..], mode);
    EscapedStep(s, mode);
    if s[1..] != [] {
      EscapedStart(s[1..], mode);
    } else {
      NothingEscapes(mode);
    }
    assert !StartsWithPair([s[0]] + rest);
    assert ([s[0]] + rest)[1..] == rest;
    var whole := [REPLACEMENT] + Repaired(s[1..]);
    assert Repaired(s) == whole;
    EscapedStep(whole, mode);
    assert whole[1..] == Repaired(s[1..]);
  }

  lemma NothingEscapes(mode: Mode)
    ensures Escaped([], mode) == []
  {
  }

  lemma OrdinaryEscaped(s: Str, mode: Mode)
    requires JsonMode(mode) && s != [] && !IsHigh(s[0]) && !IsLow(s[0])
    requires Repaired(Escaped(s[1..], mode)) == Escaped(Repaired(s[1..]), mode)
    ensures Repaired(Escaped(s, mode)) == Escaped(Repaired(s), mode)
  {
    hide Escaped, EscapeUnit;
    EscapedStep(s, mode);
    OrdinaryUnit(s[0], mode);
    RepairedConcat(EscapeUnit(s[0], mode), Escaped(s[1..], mode));
    var whole := [s[0]] + Repaired(s[1..]);
    assert Repaired(s) == whole;
    EscapedStep(whole, mode);
    assert whole[1..] == Repaired(s[1..]);
  }

  // --- Values ---

  /** The value with every string and every key repaired. */
  function RepairedValue(v: Value): Value {
    match v
    case String(s) => String(Repaired(s))
    case Array(items) => Array(RepairedItems(items))
    case Object(members) => Object(RepairedMembers(members))
    case _ => v
  }

  function RepairedItems(items: seq<Value>): seq<Value> {
    if items == [] then [] else [RepairedValue(items[0])] + RepairedItems(items[1..])
  }

  function RepairedMembers(members: seq<Member>): seq<Member> {
    if members == [] then []
    else [Member(Repaired(members[0].key), RepairedValue(members[0].value))] + RepairedMembers(members[1..])
  }

  lemma RepairedQuoted(s: Str, mode: Mode)
    requires JsonMode(mode)
    ensures Repaired(Quoted(s, mode)) == Quoted(Repaired(s), mode)
  {
    hide Escaped, Repaired;
    var text := Escaped(s, mode);
    RepairedConcat([34] + text, [34]);
    RepairedConcat([34], text);
    RepairedAscii([34]);
    RepairedEscaped(s, mode);
  }

  lemma RepairedScalar(v: Value, mode: Mode)
    requires !v.String? && !v.Array? && !v.Object?
    ensures Repaired(Print(v, mode)) == Print(v, mode)
  {
    hide Repaired;
    RepairedAscii(Print(v, mode));
  }

  /** Text between fences: an opening and a closing mark. */
  lemma RepairedFenced(open: CodeUnit, text: Str, close: CodeUnit)
    requires open < 0x80 && close < 0x80
    ensures Repaired([open] + text + [close]) == [open] + Repaired(text) + [close]
  {
    hide Repaired;
    RepairedConcat([open] + text, [close]);
    RepairedConcat([open], text);
    RepairedAscii([open]);
    RepairedAscii([close]);
  }

  lemma {:induction false} RepairedPrint(v: Value, mode: Mode)
    requires JsonMode(mode)
    ensures Repaired(Print(v, mode)) == Print(RepairedValue(v), mode)
    decreases v, 0
  {
    hide Repaired, Quoted, ItemsText, MembersText;
    match v
    case String(s) => RepairedQuoted(s, mode);
    case Array(items) =>
      RepairedFenced(91, ItemsText(items, true, mode), 93);
      RepairedItemsText(items, true, mode);
    case Object(members) =>
      RepairedFenced(123, MembersText(members, true, mode), 125);
      RepairedMembersText(members, true, mode);
    case _ => RepairedScalar(v, mode);
  }

  lemma RepairedComma(first: bool, text: Str)
    requires text != [] && text[0] < 0x80
    ensures Repaired(Comma(first) + text) == Comma(first) + Repaired(text)
  {
    hide Repaired;
    RepairedConcat(Comma(first), text);
    RepairedAscii(Comma(first));
  }

  lemma {:induction false} RepairedItemsText(items: seq<Value>, first: bool, mode: Mode)
    requires JsonMode(mode)
    ensures Repaired(ItemsText(items, first, mode)) == ItemsText(RepairedItems(items), first, mode)
    decreases items, 1
  {
    if items == [] {
      RepairedAscii([]);
    } else {
      hide Print, Repaired;
      var text := Print(items[0], mode);
      ValueStart(items[0], mode);
      RepairedPrint(items[0], mode);
      RepairedItemsText(items[1..], false, mode);
      RepairedConcat(Comma(first) + text, ItemsText(items[1..], false, mode));
      RepairedComma(first, text);
      assert RepairedItems(items)[0] == RepairedValue(items[0]) && RepairedItems(items)[1..] == RepairedItems(items[1..]);
    }
  }

  lemma {:induction false} RepairedMembersText(members: seq<Member>, first: bool, mode: Mode)
    requires JsonMode(mode)
    ensures Repaired(MembersText(members, first, mode)) == MembersText(RepairedMembers(members), first, mode)
    decreases members, 1
  {
    if members == [] {
      RepairedAscii([]);
    } else {
      hide MemberText, Repaired;
      var m := members[0];
      var text := MemberText(m, mode);
      RepairedPrint(m.value, mode);
      RepairedMemberText(m, mode);
      MemberEnds(m, mode);
      RepairedMembersText(members[1..], false, mode);
      RepairedConcat(Comma(first) + text, MembersText(members[1..], false, mode));
      RepairedComma(first, text);
      assert RepairedMembers(members)[0] == Member(Repaired(m.key), RepairedValue(m.value));
      assert RepairedMembers(members)[1..] == RepairedMembers(members[1..]);
    }
  }

  lemma MemberEnds(m: Member, mode: Mode)
    ensures var text := MemberText(m, mode); text != [] && text[0] == 34 && text[|text| - 1] < 0x80
  {
    hide Print, Escaped;
    ValueStart(m.value, mode);
  }

  lemma RepairedMemberText(m: Member, mode: Mode)
    requires JsonMode(mode) && Repaired(Print(m.value, mode)) == Print(RepairedValue(m.value), mode)
    ensures Repaired(MemberText(m, mode)) == MemberText(Member(Repaired(m.key), RepairedValue(m.value)), mode)
  {
    hide Print, Quoted, Repaired;
    RepairedConcat(Quoted(m.key, mode) + [58], Print(m.value, mode));
    RepairedConcat(Quoted(m.key, mode), [58]);
    RepairedAscii([58]);
    RepairedQuoted(m.key, mode);
  }

  /** For every observation the stored bytes decode, and parse to the observation with
      the unpaired surrogates of its strings and keys replaced and values without a JSON
      form as null. */
  lemma ObservationReadsBack(v: Value)
    ensures
      var text := Decode(Encode(Print(v, Mode.Json)));
      text.Some? && ParseText(text.value) == Some(Normal(RepairedValue(v)))
  {
    hide Decode, Encode, Repaired, Print, ParseText;
    DecodeEncode(Print(v, Mode.Json));
    RepairedPrint(v, Mode.Json);
    TextRoundTrip(RepairedValue(v), Mode.Json);
  }
}
