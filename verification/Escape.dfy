/** The escaping modes of the serializers and the loop that writes escaped text. */
module Escape {
  import opened Text
  import opened Writer

  datatype Mode = Attribute | Json | ScriptJson | Raw | Plain

  function HtmlEscape(code: CodeUnit, attribute: bool): Option<Str> {
    if code == 38 then Some(Ascii("&amp;"))
    else if code == 60 then Some(Ascii("&lt;"))
    else if attribute && code == 34 then Some(Ascii("&quot;"))
    else None
  }

  function JsonEscape(code: CodeUnit): Option<Str> {
    if code == 8 then Some(Ascii("\\b"))
    else if code == 9 then Some(Ascii("\\t"))
    else if code == 10 then Some(Ascii("\\n"))
    else if code == 12 then Some(Ascii("\\f"))
    else if code == 13 then Some(Ascii("\\r"))
    else if code == 34 then Some(Ascii("\\\""))
    else if code == 92 then Some(Ascii("\\\\"))
    else if code < 32 then Some(Ascii("\\u00") + [HexDigit(code / 16), HexDigit(code % 16)])
    else None
  }

  function ScriptDataEscape(code: CodeUnit): Option<Str> {
    if code == 38 then Some(Ascii("\\u0026"))
    else if code == 60 then Some(Ascii("\\u003c"))
    else if code == 62 then Some(Ascii("\\u003e"))
    else if code == 0x2028 then Some(Ascii("\\u2028"))
    else if code == 0x2029 then Some(Ascii("\\u2029"))
    else None
  }

  /** What replaces a code unit, if anything. A replacement is non-empty ASCII. */
  function Replacement(code: CodeUnit, mode: Mode): (r: Option<Str>)
    ensures r.Some? ==> r.value != [] && forall i :: 0 <= i < |r.value| ==> r.value[i] < 0x80
  {
    match mode
    case Json => JsonEscape(code)
    case ScriptJson => if JsonEscape(code).Some? then JsonEscape(code) else ScriptDataEscape(code)
    case Raw => None
    case Attribute => HtmlEscape(code, true)
    case Plain => HtmlEscape(code, false)
  }

  function EscapeUnit(code: CodeUnit, mode: Mode): Str {
    var r := Replacement(code, mode);
    if r.Some? then r.value else [code]
  }

  /** The escaped text, unit by unit. */
  function Escaped(value: Str, mode: Mode): Str {
    if value == [] then [] else EscapeUnit(value[0], mode) + Escaped(value[1..], mode)
  }

  lemma {:induction false} EscapedConcat(a: Str, b: Str, mode: Mode)
    ensures Escaped(a + b, mode) == Escaped(a, mode) + Escaped(b, mode)
  {
    if a == [] {
      assert a + b == b;
    } else {
      EscapedConcat(a[1..], b, mode);
      assert (a + b)[1..] == a[1..] + b;
      ConcatAssociates(EscapeUnit(a[0], mode), Escaped(a[1..], mode), Escaped(b, mode));
    }
  }

  /** No unit of `value[from..to]` is replaced. */
  ghost predicate Unescaped(value: Str, from: nat, to: nat, mode: Mode)
    requires from <= to <= |value|
  {
    forall i :: from <= i < to ==> Replacement(value[i], mode).None?
  }

  lemma {:induction false} EscapedPlain(value: Str, mode: Mode)
    requires Unescaped(value, 0, |value|, mode)
    ensures Escaped(value, mode) == value
  {
    if value != [] {
      assert value == [value[0]] + value[1..];
      EscapedPlain(value[1..], mode);
    }
  }

  /** How the escaped text divides at a unit that is replaced. */
  lemma EscapedAt(value: Str, start: nat, index: nat, mode: Mode)
    requires start <= index < |value| && Unescaped(value, start, index, mode)
    ensures Escaped(value[..index], mode) == Escaped(value[..start], mode) + value[start..index]
    ensures Escaped(value[..index + 1], mode) == Escaped(value[..index], mode) + EscapeUnit(value[index], mode)
    ensures Escaped(value, mode) == Escaped(value[..index + 1], mode) + Escaped(value[index + 1..], mode)
  {
    hide Escaped, EscapeUnit;
    assert value[..index] == value[..start] + value[start..index];
    EscapedConcat(value[..start], value[start..index], mode);
    EscapedPlain(value[start..index], mode);
    assert value[..index + 1] == value[..index] + [value[index]];
    EscapedConcat(value[..index], [value[index]], mode);
    EscapedUnitText(value[index], mode);
    assert value == value[..index + 1] + value[index + 1..];
    EscapedConcat(value[..index + 1], value[index + 1..], mode);
  }

  lemma EscapedUnitText(code: CodeUnit, mode: Mode)
    ensures Escaped([code], mode) == EscapeUnit(code, mode)
  {
    assert [code][1..] == [];
  }

  /** A text whose end cannot be the first half of a surrogate pair. */
  ghost predicate Closed(s: Str) {
    s == [] || s[|s| - 1] < 0x80
  }

  /** Pieces that encode as their joined text does. */
  ghost predicate Renders(pieces: seq<Str>, text: Str) {
    Join(pieces) == text && EncodeAll(pieces) == Encode(text)
  }

  lemma RendersMore(pieces: seq<Str>, text: Str, more: Str)
    requires Renders(pieces, text) && !Splits(text, more)
    ensures Renders(pieces + [more], text + more)
    ensures TotalWidth(pieces + [more]) == Utf8Length(text + more)
  {
    AppendPiece(pieces, more);
    EncodeConcat(text, more);
  }

  /** Text up to a replaced unit, and text up to and including it, is no wider than
      the whole. */
  lemma EscapedPrefixFits(value: Str, start: nat, index: nat, mode: Mode)
    requires start <= index < |value| && Unescaped(value, start, index, mode)
    requires Replacement(value[index], mode).Some?
    ensures Utf8Length(Escaped(value[..index], mode)) <= Utf8Length(Escaped(value[..index + 1], mode))
    ensures Utf8Length(Escaped(value[..index + 1], mode)) <= Utf8Length(Escaped(value, mode))
  {
    EscapedAt(value, start, index, mode);
    EncodeConcat(Escaped(value[..index], mode), EscapeUnit(value[index], mode));
    EncodeConcat(Escaped(value[..index + 1], mode), Escaped(value[index + 1..], mode));
  }

  lemma EscapedTail(value: Str, start: nat, mode: Mode)
    requires start <= |value| && Unescaped(value, start, |value|, mode)
    ensures Escaped(value, mode) == Escaped(value[..start], mode) + value[start..]
  {
    assert value == value[..start] + value[start..];
    EscapedConcat(value[..start], value[start..], mode);
    EscapedPlain(value[start..], mode);
  }

  lemma NothingEscaped(value: Str, mode: Mode)
    ensures Escaped(value[..0], mode) == [] && Renders([], [])
  {
  }

  /** Maximal runs of ordinary units and replacements are written alternately; the
      whole counts as one piece, the escaped text. */
  method WriteEscaped(writer: BoundedWriter, value: Str, mode: Mode) returns (ok: bool)
    requires writer.Valid()
    modifies writer
    ensures writer.Valid() && writer.offered == old(writer.offered) + [Escaped(value, mode)]
    ensures ok == !writer.overflow
  {
    hide Replacement, Encode, EncodeAll, Join, Escaped;
    var start := 0;
    ghost var before, pieces := writer.offered, [];
    NothingEscaped(value, mode);
    for index := 0 to |value|
      invariant 0 <= start <= index
      invariant writer.Valid() && writer.offered == before + pieces
      invariant Renders(pieces, Escaped(value[..start], mode)) && Closed(Escaped(value[..start], mode))
      invariant Unescaped(value, start, index, mode)
    {
      var replacement := Replacement(value[index], mode);
      if replacement.Some? {
        EscapedAt(value, start, index, mode);
        EscapedPrefixFits(value, start, index, mode);
        RendersMore(pieces, Escaped(value[..start], mode), value[start..index]);
        ok := writer.Write(value[start..index]);
        pieces := pieces + [value[start..index]];
        if ok {
          RendersMore(pieces, Escaped(value[..index], mode), replacement.value);
          ok := writer.Write(replacement.value);
          pieces := pieces + [replacement.value];
        }
        if !ok {
          writer.Regroup(before, pieces, Escaped(value, mode));
          return;
        }
        start := index + 1;
      }
    }
    EscapedTail(value, start, mode);
    RendersMore(pieces, Escaped(value[..start], mode), value[start..]);
    ok := writer.Write(value[start..]);
    pieces := pieces + [value[start..]];
    writer.Regroup(before, pieces, Escaped(value, mode));
  }

  // --- Reading escaped HTML text ---

  predicate StartsWith(s: Str, prefix: Str) {
    |prefix| <= |s| && s[..|prefix|] == prefix
  }

  /** Character references replaced by what they stand for. */
  function Unescape(s: Str): Str {
    if s == [] then []
    else if StartsWith(s, Ascii("&amp;")) then [38] + Unescape(s[5..])
    else if StartsWith(s, Ascii("&lt;")) then [60] + Unescape(s[4..])
    else if StartsWith(s, Ascii("&quot;")) then [34] + Unescape(s[6..])
    else [s[0]] + Unescape(s[1..])
  }

  lemma UnescapeReference(code: CodeUnit, rest: Str)
    ensures Unescape(Ascii("&amp;") + rest) == [38] + Unescape(rest)
    ensures Unescape(Ascii("&lt;") + rest) == [60] + Unescape(rest)
    ensures Unescape(Ascii("&quot;") + rest) == [34] + Unescape(rest)
    ensures code != 38 ==> Unescape([code] + rest) == [code] + Unescape(rest)
  {
    var amp, lt, quot := Ascii("&amp;"), Ascii("&lt;"), Ascii("&quot;");
    assert |amp| == 5 && |lt| == 4 && |quot| == 6;
    assert amp[0] == 38 && amp[1] == 97 && lt[0] == 38 && lt[1] == 108 && quot[0] == 38 && quot[1] == 113;
    assert (amp + rest)[..5] == amp && (amp + rest)[5..] == rest;
    assert (lt + rest)[..4] == lt && (lt + rest)[4..] == rest && (lt + rest)[1] == 108;
    assert (quot + rest)[..6] == quot && (quot + rest)[6..] == rest && (quot + rest)[1] == 113;
    assert ([code] + rest)[0] == code && ([code] + rest)[1..] == rest;
  }

  /** Escaped text and attribute values read back as they were, and hold no character that
      would end them. */
  lemma {:induction false} HtmlRoundTrip(value: Str, mode: Mode)
    requires mode.Attribute? || mode.Plain?
    ensures Unescape(Escaped(value, mode)) == value
    ensures forall i :: 0 <= i < |Escaped(value, mode)| ==>
      Escaped(value, mode)[i] != 60 && (mode.Attribute? ==> Escaped(value, mode)[i] != 34)
  {
    if value != [] {
      hide Unescape;
      var rest := Escaped(value[1..], mode);
      HtmlRoundTrip(value[1..], mode);
      UnescapeReference(value[0], rest);
      assert value == [value[0]] + value[1..];
      SafeUnit(value[0], mode);
    }
  }

  lemma SafeUnit(code: CodeUnit, mode: Mode)
    requires mode.Attribute? || mode.Plain?
    ensures forall i :: 0 <= i < |EscapeUnit(code, mode)| ==>
      EscapeUnit(code, mode)[i] != 60 && (mode.Attribute? ==> EscapeUnit(code, mode)[i] != 34)
  {
  }
}
