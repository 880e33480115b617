/** Byte identity is value identity: decode undoes encode, encode undoes decode. */
module Canonical {
  import opened Bytes
  import opened Model
  import opened Utf8
  import opened Wire
  import opened Gate
  import opened Native

  // ---- every accepted body is the encoding of its value -------------------------------

  lemma {:induction false} DecodedBodyIsEncoding(door: Schema, base: bytes, depth: nat, b: bytes)
    requires DecodeBody(door, base, depth, b).Ok?
    ensures var r := DecodeBody(door, base, depth, b);
            EncodeBody(r.value).Some? && b == EncodeBody(r.value).value + r.rest
    decreases door, 1, 0
  {
    hide Mask, EncodeFields, DecodeFields, PaddingClear, MaskBit;
    var n := |door.fields|;
    var mask, left := b[..MaskSize(n)], b[MaskSize(n)..];
    var r := DecodeBody(door, base, depth, b);
    DecodedMask(door, base, depth, b);
    assert r.value.slots[0..] == r.value.slots;
    DecodedFieldsAreEncoding(r.value, 0, mask, base, depth, left);
    var e := EncodeFields(r.value, 0).value;
    assert b == mask + left;
    Joined(mask, e, r.rest);
  }

  lemma Joined(mask: bytes, e: bytes, rest: bytes)
    ensures mask + (e + rest) == (mask + e) + rest
  {
  }

  /** The mask an accepted body starts with is the mask of the value it decodes to. */
  lemma DecodedMask(door: Schema, base: bytes, depth: nat, b: bytes)
    requires DecodeBody(door, base, depth, b).Ok?
    ensures MaskSize(|door.fields|) <= |b|
    ensures Mask(DecodeBody(door, base, depth, b).value) == b[..MaskSize(|door.fields|)]
  {
    hide Mask, DecodeFields, PaddingClear, MaskBit;
    var n := |door.fields|;
    var mask, left := b[..MaskSize(n)], b[MaskSize(n)..];
    var r := DecodeBody(door, base, depth, b);
    DecodedSlots(door, 0, mask, base, depth, left);
    forall i: nat | i < n ensures MaskBit(mask, i) == At(r.value, i).Some? {
      assert MaskBit(mask, 0 + i) == r.value.slots[i].Some?;
    }
    MaskIsCanonical(r.value, mask);
  }

  lemma {:induction false} DecodedFieldsAreEncoding(
      v: Value, i: nat, mask: bytes, base: bytes, depth: nat, b: bytes)
    requires |v.slots| == |v.schema.fields| && i <= |v.slots| && |mask| == MaskSize(|v.slots|)
    requires DecodeFields(v.schema, i, mask, base, depth, b).Ok?
    requires DecodeFields(v.schema, i, mask, base, depth, b).value == v.slots[i..]
    ensures EncodeFields(v, i).Some?
    ensures b == EncodeFields(v, i).value + DecodeFields(v.schema, i, mask, base, depth, b).rest
    decreases v.schema, 0, |v.schema.fields| - i
  {
    hide DecodeCell, EncodeCell, MaskBit;
    if i < |v.slots| {
      var f := v.schema.fields[i];
      var tail := v.slots[i..][1..];
      assert tail == v.slots[i + 1..];
      if MaskBit(mask, i) {
        var path := JoinField(base, f.name);
        var r := DecodeCell(f.ty, path, depth, b);
        DecodedCellIsEncoding(f.ty, path, depth, b);
        var d := DecodeFields(v.schema, i + 1, mask, base, depth, r.rest);
        assert ([Some(r.value)] + d.value)[1..] == d.value;
        DecodedFieldsAreEncoding(v, i + 1, mask, base, depth, r.rest);
        assert v.slots[i] == v.slots[i..][0];
      } else {
        var d := DecodeFields(v.schema, i + 1, mask, base, depth, b);
        assert ([None] + d.value)[1..] == d.value;
        DecodedFieldsAreEncoding(v, i + 1, mask, base, depth, b);
        assert v.slots[i] == v.slots[i..][0];
      }
    }
  }

  lemma {:induction false} DecodedCellIsEncoding(t: Type, path: bytes, depth: nat, b: bytes)
    requires DecodeCell(t, path, depth, b).Ok?
    ensures var r := DecodeCell(t, path, depth, b);
            EncodeCell(r.value, t).Some? && b == EncodeCell(r.value, t).value + r.rest
    decreases t, 0, 0
  {
    hide ReadZigzag, ReadFloat, ReadChunk, ReadUvarint, PutUvarint, ValidUtf8, DecodeBody, EncodeBody,
         DecodeElements, EncodeElements;
    match t
    case IntT => ZigzagIsPut(b);
    case FloatT => ReadFloatIsPut(b);
    case TextT => ChunkIsPut(b);
    case BoolT => assert b == [b[0]] + b[1..];
    case BytesT => ChunkIsPut(b);
    case MessageT(s) => DecodedBodyIsEncoding(s, path, depth + 1, b);
    case ListT(e) =>
      var r := ReadUvarint(b, 0);
      ReadUvarintIsPut(b);
      var cs := DecodeElements(e, 0, r.value, path, depth, r.rest).value;
      assert cs[0..] == cs;
      DecodedElementsAreEncoding(e, cs, 0, path, depth, r.rest);
      Joined(PutUvarint(|cs|), EncodeElements(cs, 0, e).value, DecodeElements(e, 0, r.value, path, depth, r.rest).rest);
  }

  lemma {:induction false} DecodedElementsAreEncoding(
      t: Type, cs: seq<Cell>, k: nat, path: bytes, depth: nat, b: bytes)
    requires k <= |cs| && DecodeElements(t, k, |cs|, path, depth, b).Ok?
    requires DecodeElements(t, k, |cs|, path, depth, b).value == cs[k..]
    ensures EncodeElements(cs, k, t).Some?
    ensures b == EncodeElements(cs, k, t).value + DecodeElements(t, k, |cs|, path, depth, b).rest
    decreases t, 1, |cs| - k
  {
    hide DecodeCell, EncodeCell;
    if k < |cs| {
      var r := DecodeCell(t, JoinIndex(path, k), depth + 1, b);
      DecodedCellIsEncoding(t, JoinIndex(path, k), depth + 1, b);
      var d := DecodeElements(t, k + 1, |cs|, path, depth, r.rest);
      assert ([r.value] + d.value)[1..] == d.value;
      assert cs[k..][1..] == cs[k + 1..] && cs[k..][0] == cs[k];
      DecodedElementsAreEncoding(t, cs, k + 1, path, depth, r.rest);
    }
  }

  lemma ZigzagIsPut(b: bytes)
    requires ReadZigzag(b).Got?
    ensures b == PutUvarint(Zigzag(ReadZigzag(b).value)) + ReadZigzag(b).rest
  {
    ReadUvarintIsPut(b);
    ZigzagRoundTrip(0, ReadUvarint(b, 0).value);
  }

  lemma ChunkIsPut(b: bytes)
    requires ReadChunk(b).Got?
    ensures var r := ReadChunk(b); b == PutUvarint(|r.value|) + r.value + r.rest
  {
    ReadUvarintIsPut(b);
    var u := ReadUvarint(b, 0);
    assert u.rest == u.rest[..u.value] + u.rest[u.value..];
  }

  // ---- decoding an encoding, whatever follows it ------------------------------------------

  /** An encoded instance followed by anything decodes to itself with NaNs normalised,
      leaving exactly what followed, when it is within the caps; otherwise it is refused. */
  lemma {:induction false} DecodeOfBody(v: Value, s: Schema, base: bytes, depth: nat, rest: bytes)
    requires Instance(v, s)
    ensures EncodeBody(v).Some?
    ensures var d := DecodeBody(s, base, depth, EncodeBody(v).value + rest);
            if WithinCaps(v, depth) then d == Ok(Norm(v), rest) else d.Bad?
    decreases v, 2, 0
  {
    var mask := Mask(v);
    DecodeOfFields(v, 0, base, depth, rest);
    MaskPaddingClear(v);
    var fields := EncodeFields(v, 0).value;
    var b := EncodeBody(v).value + rest;
    assert b == mask + (fields + rest);
    assert b[..|mask|] == mask && b[|mask|..] == fields + rest;
    assert Norm(v).slots[0..] == Norm(v).slots;
  }

  lemma {:induction false} DecodeOfFields(v: Value, i: nat, base: bytes, depth: nat, rest: bytes)
    requires Instance(v, v.schema) && i <= |v.slots|
    ensures EncodeFields(v, i).Some?
    ensures var d := DecodeFields(v.schema, i, Mask(v), base, depth, EncodeFields(v, i).value + rest);
            depth <= MAX_DEPTH ==>
              if FieldsWithinCaps(v, i, depth) then d == Ok(Norm(v).slots[i..], rest) else d.Bad?
    decreases v, 1, |v.slots| - i
  {
    hide EncodeCell, DecodeCell, CellWithinCaps, NormCell, EncodeFields, DecodeFields, FieldsWithinCaps, Norm,
         Mask, CellInstance;
    if i == |v.slots| {
      DecodeOfNoFields(v, base, depth, rest);
    } else {
      DecodeOfFields(v, i + 1, base, depth, rest);
      if v.slots[i].Some? {
        var f, tail := v.schema.fields[i], EncodeFields(v, i + 1).value + rest;
        DecodeOfCell(v.slots[i].value, f.ty, JoinField(base, f.name), depth, tail);
      }
      EncodeFieldStep(v, i, rest);
      DecodeFieldStep(v, i, base, depth, rest);
    }
  }

  lemma DecodeOfNoFields(v: Value, base: bytes, depth: nat, rest: bytes)
    requires |v.slots| == |v.schema.fields|
    ensures EncodeFields(v, |v.slots|) == Some([]) && [] + rest == rest
    ensures DecodeFields(v.schema, |v.slots|, Mask(v), base, depth, rest) == Ok(Norm(v).slots[|v.slots|..], rest)
    ensures FieldsWithinCaps(v, |v.slots|, depth)
  {
    hide Mask, NormCell;
    assert Norm(v).slots[|v.slots|..] == [];
  }

  /** What slot i contributes to the encoding. */
  function EncodeSlot(v: Value, i: nat): Option<bytes>
    requires i < |v.slots| == |v.schema.fields|
  {
    if v.slots[i].Some? then EncodeCell(v.slots[i].value, v.schema.fields[i].ty) else Some([])
  }

  lemma EncodeFieldStep(v: Value, i: nat, rest: bytes)
    requires i < |v.slots| == |v.schema.fields|
    requires EncodeSlot(v, i).Some? && EncodeFields(v, i + 1).Some?
    ensures EncodeFields(v, i).Some?
    ensures EncodeFields(v, i).value + rest == EncodeSlot(v, i).value + (EncodeFields(v, i + 1).value + rest)
  {
  }

  /** One turn of the field loop on a slot known to be absent, to decode, or to be refused. */
  lemma DecodeFieldStep(v: Value, i: nat, base: bytes, depth: nat, rest: bytes)
    requires i < |v.slots| == |v.schema.fields|
    requires EncodeSlot(v, i).Some? && EncodeFields(v, i + 1).Some?
    requires v.slots[i].Some? && depth <= MAX_DEPTH ==>
               var b := EncodeSlot(v, i).value + (EncodeFields(v, i + 1).value + rest);
               var d := DecodeCell(v.schema.fields[i].ty, JoinField(base, v.schema.fields[i].name), depth, b);
               if CellWithinCaps(v.slots[i].value, depth)
               then d == Ok(NormCell(v.slots[i].value), EncodeFields(v, i + 1).value + rest) else d.Bad?
    requires depth <= MAX_DEPTH ==>
               var d := DecodeFields(v.schema, i + 1, Mask(v), base, depth, EncodeFields(v, i + 1).value + rest);
               if FieldsWithinCaps(v, i + 1, depth) then d == Ok(Norm(v).slots[i + 1..], rest) else d.Bad?
    ensures var d := DecodeFields(v.schema, i, Mask(v), base, depth,
                                  EncodeSlot(v, i).value + (EncodeFields(v, i + 1).value + rest));
            depth <= MAX_DEPTH ==>
              if FieldsWithinCaps(v, i, depth) then d == Ok(Norm(v).slots[i..], rest) else d.Bad?
  {
    MaskSaysPresent(v, i);
    assert Norm(v).slots[i..] == [Norm(v).slots[i]] + Norm(v).slots[i + 1..];
    assert v.slots[i].None? ==> EncodeSlot(v, i).value + (EncodeFields(v, i + 1).value + rest) == EncodeFields(v, i + 1).value + rest;
  }

  /** The caps, for the slots from i on. */
  predicate FieldsWithinCaps(v: Value, i: nat, depth: nat) {
    forall j :: i <= j < |v.slots| && v.slots[j].Some? ==> CellWithinCaps(v.slots[j].value, depth)
  }

  lemma {:induction false} DecodeOfCell(c: Cell, t: Type, path: bytes, depth: nat, rest: bytes)
    requires CellInstance(c, t)
    ensures EncodeCell(c, t).Some?
    ensures var d := DecodeCell(t, path, depth, EncodeCell(c, t).value + rest);
            if CellWithinCaps(c, depth) then d == Ok(NormCell(c), rest) else d.Bad?
    decreases c, 0, 0
  {
    match t
    case IntT =>
      ReadPutUvarint(Zigzag(c.i), rest);
      ZigzagRoundTrip(c.i, 0);
    case FloatT => ReadPutFloat(c.bits, rest);
    case TextT => ReadPutChunk(c.text, rest);
    case BoolT =>
    case BytesT => ReadPutChunk(c.octets, rest);
    case MessageT(s) => DecodeOfBody(c.msg.value, s, path, depth + 1, rest);
    case ListT(e) =>
      assert ElementInstances(c.cells, e);
      DecodeOfElements(c.cells, 0, e, path, depth, rest);
      var es := EncodeElements(c.cells, 0, e).value;
      ReadPutUvarint(|c.cells|, es + rest);
      assert (PutUvarint(|c.cells|) + es) + rest == PutUvarint(|c.cells|) + (es + rest);
      assert NormCells(c.cells)[0..] == NormCells(c.cells);
      assert ElementsWithinCaps(c.cells, 0, depth + 1) ==
             forall k :: 0 <= k < |c.cells| ==> CellWithinCaps(c.cells[k], depth + 1);
  }

  function NormCells(cs: seq<Cell>): seq<Cell> {
    seq(|cs|, k requires 0 <= k < |cs| => NormCell(cs[k]))
  }

  predicate ElementsWithinCaps(cs: seq<Cell>, k: nat, depth: nat) {
    forall j :: k <= j < |cs| ==> CellWithinCaps(cs[j], depth)
  }

  predicate ElementInstances(cs: seq<Cell>, t: Type) {
    forall j :: 0 <= j < |cs| ==> CellInstance(cs[j], t)
  }

  lemma {:induction false} DecodeOfElements(
      cs: seq<Cell>, k: nat, t: Type, path: bytes, depth: nat, rest: bytes)
    requires k <= |cs| && ElementInstances(cs, t)
    ensures EncodeElements(cs, k, t).Some?
    ensures var d := DecodeElements(t, k, |cs|, path, depth, EncodeElements(cs, k, t).value + rest);
            if ElementsWithinCaps(cs, k, depth + 1) then d == Ok(NormCells(cs)[k..], rest) else d.Bad?
    decreases cs, 1, |cs| - k
  {
    if k == |cs| {
      assert EncodeElements(cs, k, t).value + rest == rest;
      assert NormCells(cs)[k..] == [];
    } else {
      hide EncodeElements, EncodeCell, DecodeElements, DecodeCell, CellWithinCaps, ElementsWithinCaps, NormCell,
           NormCells, CellInstance;
      DecodeOfElements(cs, k + 1, t, path, depth, rest);
      var after := EncodeElements(cs, k + 1, t).value;
      var tail := after + rest;
      DecodeOfCell(cs[k], t, JoinIndex(path, k), depth + 1, tail);
      EncodeElementStep(cs, k, t);
      var head := EncodeCell(cs[k], t).value;
      Joined(head, after, rest);
      DecodeElementStep(cs, k, t, path, depth, head + tail, tail, rest);
    }
  }

  lemma EncodeElementStep(cs: seq<Cell>, k: nat, t: Type)
    requires k < |cs| && EncodeCell(cs[k], t).Some? && EncodeElements(cs, k + 1, t).Some?
    ensures EncodeElements(cs, k, t) == Some(EncodeCell(cs[k], t).value + EncodeElements(cs, k + 1, t).value)
  {
    hide EncodeCell;
  }

  /** One turn of the element loop on a cell known to decode or be refused. */
  lemma DecodeElementStep(cs: seq<Cell>, k: nat, t: Type, path: bytes, depth: nat, b: bytes, tail: bytes, rest: bytes)
    requires k < |cs|
    requires var d := DecodeCell(t, JoinIndex(path, k), depth + 1, b);
             if CellWithinCaps(cs[k], depth + 1) then d == Ok(NormCell(cs[k]), tail) else d.Bad?
    requires var d := DecodeElements(t, k + 1, |cs|, path, depth, tail);
             if ElementsWithinCaps(cs, k + 1, depth + 1) then d == Ok(NormCells(cs)[k + 1..], rest) else d.Bad?
    ensures var d := DecodeElements(t, k, |cs|, path, depth, b);
            if ElementsWithinCaps(cs, k, depth + 1) then d == Ok(NormCells(cs)[k..], rest) else d.Bad?
  {
    assert NormCells(cs)[k..] == [NormCell(cs[k])] + NormCells(cs)[k + 1..];
  }

  lemma ReadPutChunk(s: bytes, rest: bytes)
    ensures ReadChunk(PutUvarint(|s|) + s + rest) ==
            if |s| <= MAX_FIELD_BYTES then Got(s, rest) else Refused
  {
    hide PutUvarint, ReadUvarint, ReadChunk;
    var left := s + rest;
    ReadPutUvarint(|s|, left);
    assert PutUvarint(|s|) + s + rest == PutUvarint(|s|) + left;
    ChunkAfterLength(PutUvarint(|s|) + left, s, rest);
  }

  lemma ChunkAfterLength(b: bytes, s: bytes, rest: bytes)
    requires ReadUvarint(b, 0) == if |s| < TWO_64 then Got(|s|, s + rest) else Refused
    ensures ReadChunk(b) == if |s| <= MAX_FIELD_BYTES then Got(s, rest) else Refused
  {
    assert (s + rest)[..|s|] == s && (s + rest)[|s|..] == rest;
  }

  // ---- consequences ------------------------------------------------------------------------

  /** Normalising twice changes nothing more, and it never changes what is encoded. */
  lemma {:induction false} NormEncodesTheSame(v: Value, s: Schema)
    requires Instance(v, s) && WithinCaps(v, 0)
    ensures EncodeBody(Norm(v)) == EncodeBody(v)
  {
    DecodeOfBody(v, s, [], 0, []);
    DecodedBodyIsEncoding(s, [], 0, EncodeBody(v).value + []);
    assert EncodeBody(v).value + [] == EncodeBody(v).value;
    assert EncodeBody(Norm(v)).value + [] == EncodeBody(Norm(v)).value;
  }

  /** What the decoder yields is within the caps and carries no other NaN. */
  lemma DecodedIsNormal(door: Schema, b: bytes)
    requires DecodeBody(door, [], 0, b).Ok?
    ensures var v := DecodeBody(door, [], 0, b).value; WithinCaps(v, 0) && Norm(v) == v
  {
    var r := DecodeBody(door, [], 0, b);
    DecodedIsInstance(door, [], 0, b);
    DecodedBodyIsEncoding(door, [], 0, b);
    DecodeOfBody(r.value, door, [], 0, r.rest);
  }

  /** Bodies under one schema are prefix-free: if one is a prefix of the other they
      are the same bytes and the same value up to NaN. */
  lemma BodiesArePrefixFree(v: Value, w: Value, s: Schema, more: bytes)
    requires Instance(v, s) && Instance(w, s) && WithinCaps(v, 0) && WithinCaps(w, 0)
    requires EncodeBody(v).Some? && EncodeBody(w).Some?
    requires EncodeBody(w).value == EncodeBody(v).value + more
    ensures more == [] && Norm(v) == Norm(w)
  {
    DecodeOfBody(v, s, [], 0, more);
    DecodeOfBody(w, s, [], 0, []);
    assert EncodeBody(w).value + [] == EncodeBody(w).value;
  }
}
