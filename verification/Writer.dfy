/**
 The bounded writer of the serializers: a sticky byte limit over a sequence of
 written pieces. What a writer finally answers depends only on the pieces that
 were offered to it, so callers may ignore the result of a write.
 */
module Writer {
  import opened Text

  datatype BoundedResult<+T> = Limit(attempted: nat) | Ok(bytes: nat, value: T)

  function Join(pieces: seq<Str>): Str {
    if pieces == [] then [] else Join(pieces[..|pieces| - 1]) + pieces[|pieces| - 1]
  }

  /** The pieces encoded one by one. */
  function EncodeAll(pieces: seq<Str>): seq<Byte> {
    if pieces == [] then [] else EncodeAll(pieces[..|pieces| - 1]) + Encode(pieces[|pieces| - 1])
  }

  /** Sum of the UTF-8 widths of the pieces, each measured by itself. */
  function TotalWidth(pieces: seq<Str>): nat {
    |EncodeAll(pieces)|
  }

  /** The number of surrogate pairs whose halves lie in different pieces. */
  function SplitPairs(pieces: seq<Str>): nat {
    if pieces == [] then 0
    else
      var front := pieces[..|pieces| - 1];
      SplitPairs(front) + if Splits(Join(front), pieces[|pieces| - 1]) then 1 else 0
  }

  /** The answer a bounded serialization owes for the pieces of its output. */
  function Bounded(pieces: seq<Str>, maximumBytes: nat): BoundedResult<Str> {
    if TotalWidth(pieces) <= maximumBytes then Ok(TotalWidth(pieces), Join(pieces))
    else Limit(maximumBytes + 1)
  }

  lemma AppendPiece(pieces: seq<Str>, piece: Str)
    ensures Join(pieces + [piece]) == Join(pieces) + piece
    ensures EncodeAll(pieces + [piece]) == EncodeAll(pieces) + Encode(piece)
    ensures TotalWidth(pieces + [piece]) == TotalWidth(pieces) + Utf8Length(piece)
  {
    assert (pieces + [piece])[..|pieces|] == pieces;
  }

  lemma ConcatPieces(p: seq<Str>, q: seq<Str>)
    ensures Join(p + q) == Join(p) + Join(q)
    ensures EncodeAll(p + q) == EncodeAll(p) + EncodeAll(q)
    ensures TotalWidth(p + q) == TotalWidth(p) + TotalWidth(q)
  {
    JoinConcat(p, q);
    EncodeAllConcat(p, q);
  }

  lemma {:induction false} JoinConcat(p: seq<Str>, q: seq<Str>)
    ensures Join(p + q) == Join(p) + Join(q)
  {
    if q == [] {
      assert p + q == p;
    } else {
      var front := q[..|q| - 1];
      JoinConcat(p, front);
      assert (p + q)[..|p + q| - 1] == p + front;
      ConcatAssociates(Join(p), Join(front), q[|q| - 1]);
    }
  }

  lemma {:induction false} EncodeAllConcat(p: seq<Str>, q: seq<Str>)
    ensures EncodeAll(p + q) == EncodeAll(p) + EncodeAll(q)
  {
    if q == [] {
      assert p + q == p;
    } else {
      var front := q[..|q| - 1];
      EncodeAllConcat(p, front);
      assert (p + q)[..|p + q| - 1] == p + front;
      ConcatAssociates(EncodeAll(p), EncodeAll(front), Encode(q[|q| - 1]));
    }
  }

  /** The joined text is shorter than the counted bytes by exactly two bytes for
      every surrogate pair that two pieces share. */
  lemma {:induction false} CountedBytes(pieces: seq<Str>)
    ensures Utf8Length(Join(pieces)) + 2 * SplitPairs(pieces) == TotalWidth(pieces)
    ensures SplitPairs(pieces) == 0 ==> Encode(Join(pieces)) == EncodeAll(pieces)
  {
    if pieces != [] {
      CountedBytes(pieces[..|pieces| - 1]);
      EncodeConcat(Join(pieces[..|pieces| - 1]), pieces[|pieces| - 1]);
    }
  }

  class BoundedWriter {
    const maximumBytes: nat
    var bytes: nat
    var chunks: seq<Str>
    var overflow: bool
    /** Every piece offered so far, accepted or not. */
    ghost var offered: seq<Str>

    ghost predicate Valid()
      reads this
    {
      && maximumBytes <= MAX_SAFE_INTEGER
      && (overflow <==> TotalWidth(offered) > maximumBytes)
      && (!overflow ==>
            && bytes == TotalWidth(offered) == TotalWidth(chunks)
            && Join(chunks) == Join(offered)
            && EncodeAll(chunks) == EncodeAll(offered))
    }

    constructor (maximumBytes: nat)
      requires maximumBytes <= MAX_SAFE_INTEGER
      ensures Valid() && this.maximumBytes == maximumBytes && offered == []
    {
      this.maximumBytes := maximumBytes;
      bytes, chunks, overflow, offered := 0, [], false, [];
    }

    method Write(value: Str) returns (ok: bool)
      requires Valid()
      modifies this
      ensures Valid() && offered == old(offered) + [value]
      ensures ok == !overflow
    {
      AppendPiece(offered, value);
      offered := offered + [value];
      if overflow || |value| == 0 {
        return !overflow;
      }
      var width := Utf8LengthWithinLimit(value, maximumBytes - bytes);
      if width.OverLimit? {
        overflow := true;
        return false;
      }
      AppendPiece(chunks, value);
      bytes := bytes + width.bytes;
      chunks := chunks + [value];
      return true;
    }

    /** Regard the pieces offered since `before` as the single piece `text`. A writer
        that has overflowed stays overflowed when the rest of `text` is offered too. */
    ghost method Regroup(before: seq<Str>, pieces: seq<Str>, text: Str)
      requires Valid() && offered == before + pieces
      requires
        || (Join(pieces) == text && EncodeAll(pieces) == Encode(text))
        || (overflow && TotalWidth(pieces) <= Utf8Length(text))
      modifies this`offered
      ensures Valid() && offered == before + [text]
    {
      ConcatPieces(before, pieces);
      AppendPiece(before, text);
      offered := before + [text];
    }

    /** Offering more to a writer that has overflowed changes no answer. */
    ghost method Presume(more: seq<Str>)
      requires Valid() && overflow
      modifies this`offered
      ensures Valid() && offered == old(offered) + more
    {
      ConcatPieces(offered, more);
      offered := offered + more;
    }

    method ResultString() returns (r: BoundedResult<Str>)
      requires Valid()
      ensures r == Bounded(offered, maximumBytes)
    {
      if overflow {
        return Limit(maximumBytes + 1);
      }
      r := Ok(bytes, Join(chunks));
    }

    method ResultBytes() returns (r: BoundedResult<seq<Byte>>)
      requires Valid()
      ensures r == if TotalWidth(offered) <= maximumBytes
                   then Ok(TotalWidth(offered), EncodeAll(offered))
                   else Limit(maximumBytes + 1)
    {
      if overflow {
        return Limit(maximumBytes + 1);
      }
      var encoded := EncodeUtf8Chunks(chunks, bytes);
      assert encoded.value[..|EncodeAll(chunks)|] == encoded.value;
      r := Ok(bytes, encoded.value);
    }
  }

  // --- encodeUtf8Chunks ---

  datatype Encoded = Complete(value: seq<Byte>) | Incomplete

  /** `TextEncoder.encodeInto`, a browser primitive. A destination that is too small
      is reported by `read`; the partial fill it then leaves is not described,
      because the one caller discards the destination. */
  method EncodeInto(source: Str, destination: array<Byte>, offset: nat) returns (read: nat, written: nat)
    requires offset <= destination.Length
    modifies destination
    ensures (read == |source|) <==> offset + Utf8Length(source) <= destination.Length
    ensures read == |source| ==> written == Utf8Length(source)
    ensures read == |source| ==> destination[offset..offset + written] == Encode(source)
    ensures read == |source| ==> forall i ::
      0 <= i < offset || offset + written <= i < destination.Length ==> destination[i] == old(destination[i])
  {
    var encoded := Encode(source);
    if offset + |encoded| <= destination.Length {
      StoreBytes(destination, offset, encoded);
      return |source|, |encoded|;
    }
    return 0, 0;
  }

  method StoreBytes(destination: array<Byte>, offset: nat, bytes: seq<Byte>)
    requires offset + |bytes| <= destination.Length
    modifies destination
    ensures destination[offset..offset + |bytes|] == bytes
    ensures forall i :: 0 <= i < offset || offset + |bytes| <= i < destination.Length ==>
      destination[i] == old(destination[i])
  {
    for i := 0 to |bytes|
      invariant destination[offset..offset + i] == bytes[..i]
      invariant forall j :: 0 <= j < offset || offset + i <= j < destination.Length ==>
        destination[j] == old(destination[j])
    {
      destination[offset + i] := bytes[i];
    }
  }

  lemma PrefixWidth(pieces: seq<Str>, index: nat)
    requires index < |pieces|
    ensures EncodeAll(pieces[..index + 1]) == EncodeAll(pieces[..index]) + Encode(pieces[index])
    ensures TotalWidth(pieces[..index + 1]) <= TotalWidth(pieces)
  {
    assert pieces[..index + 1][..index] == pieces[..index];
    assert pieces == pieces[..index + 1] + pieces[index + 1..];
    EncodeAllConcat(pieces[..index + 1], pieces[index + 1..]);
  }

  lemma NothingWritten()
    ensures TotalWidth([]) == 0 && EncodeAll([]) == []
  {
  }

  /** The chunks are laid end to end; the array keeps zeros after them. */
  method EncodeUtf8Chunks(chunks: seq<Str>, byteLength: nat) returns (r: Encoded)
    ensures r.Complete? <==> TotalWidth(chunks) <= byteLength
    ensures r.Complete? ==> |r.value| == byteLength
    ensures r.Complete? ==> r.value[..TotalWidth(chunks)] == EncodeAll(chunks)
    ensures r.Complete? ==> forall i :: TotalWidth(chunks) <= i < byteLength ==> r.value[i] == 0
  {
    hide Encode, EncodeAll;
    var bytes := new Byte[byteLength](_ => 0);
    var offset := 0;
    NothingWritten();
    for index := 0 to |chunks|
      invariant offset == TotalWidth(chunks[..index]) <= byteLength
      invariant bytes[..offset] == EncodeAll(chunks[..index])
      invariant forall i :: offset <= i < byteLength ==> bytes[i] == 0
    {
      PrefixWidth(chunks, index);
      var read, written := EncodeInto(chunks[index], bytes, offset);
      if read != |chunks[index]| {
        return Incomplete;
      }
      offset := offset + written;
    }
    assert chunks[..|chunks|] == chunks;
    return Complete(bytes[..]);
  }
}
