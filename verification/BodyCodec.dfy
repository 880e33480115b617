/** The body encoder and decoder as they run (src/serialize.cpp): one appends to a
    buffer and patches its mask octets in place, the other moves a cursor and latches
    its first failure. Each is the specification in module Native. */
module BodyCodec {
  import opened Bytes
  import opened Model
  import opened Utf8
  import opened Wire
  import opened Gate
  import opened Native

  // ---- encode --------------------------------------------------------------------------

  /** The mask when the fields below i have been visited. */
  ghost predicate MaskUpTo(mask: bytes, v: Value, i: nat) {
    && |mask| == MaskSize(|v.schema.fields|)
    && forall k: nat, j: nat :: k < |mask| && j < 8 ==>
         Bit(mask[k], j) == (8 * k + j < i && At(v, 8 * k + j).Some?)
  }

  lemma MaskComplete(mask: bytes, v: Value)
    requires MaskUpTo(mask, v, |v.schema.fields|)
    ensures mask == Mask(v)
  {
    assert Pow2(8) == 256 by { assert Pow2(4) == 16; }
    forall k: nat | k < |mask| ensures mask[k] == MaskByte(v, k) {
      forall j: nat | j < 8 ensures Bit(mask[k], j) == Bit(MaskByte(v, k), j) {
        PackedBit(v, 8 * k, 8, j);
      }
      BitsDetermine(mask[k], MaskByte(v, k), 8);
    }
  }

  /** mask[i / 8] |= 1 << (i % 8) */
  function MaskWith(mask: bytes, i: nat): (r: bytes)
    requires i / 8 < |mask|
    ensures |r| == |mask|
  {
    assert SetBit(mask[i / 8], i % 8) < 256 by {
      assert Pow2(8) == 256 by { assert Pow2(4) == 16; }
      SetBitFits(mask[i / 8], i % 8, 8);
    }
    mask[i / 8 := SetBit(mask[i / 8], i % 8)]
  }

  lemma MaskStep(mask: bytes, v: Value, i: nat)
    requires MaskUpTo(mask, v, i) && i < |v.schema.fields|
    ensures At(v, i).Some? ==> MaskUpTo(MaskWith(mask, i), v, i + 1)
    ensures At(v, i).None? ==> MaskUpTo(mask, v, i + 1)
  {
    if At(v, i).Some? {
      var m := MaskWith(mask, i);
      forall k: nat, j: nat | k < |m| && j < 8
        ensures Bit(m[k], j) == (8 * k + j < i + 1 && At(v, 8 * k + j).Some?)
      {
        if k == i / 8 {
          SetBitIsOr(mask[k], i % 8, j);
        }
      }
    }
  }

  lemma NoMaskYet(v: Value)
    ensures MaskUpTo(seq(MaskSize(|v.schema.fields|), _ => 0), v, 0)
  {
    forall j: nat ensures !Bit(0, j) { ZeroBit(j); }
  }

  /** The bytes written so far, completed with the encoding of what is left. */
  ghost function Completed(written: bytes, tail: Option<bytes>): Option<bytes> {
    match tail
    case None => None
    case Some(t) => Some(written + t)
  }

  lemma CompletedNothing(tail: Option<bytes>)
    ensures Completed([], tail) == tail
  {
    if tail.Some? {
      assert [] + tail.value == tail.value;
    }
  }

  lemma CompletedTwice(written: bytes, head: bytes, tail: Option<bytes>)
    ensures Completed(written, Completed(head, tail)) == Completed(written + head, tail)
  {
    if tail.Some? {
      assert written + (head + tail.value) == (written + head) + tail.value;
    }
  }

  lemma PatchInPlace(before: bytes, mask: bytes, written: bytes, i: nat)
    requires i / 8 < |mask|
    ensures (before + mask + written)[|before| + i / 8 := MaskWith(mask, i)[i / 8]] == before + MaskWith(mask, i) + written
  {
  }

  /** Append the body of v; false is the throw on a value that does not conform. */
  method WriteBody(v: Value, out: Sink) returns (ok: bool)
    modifies out
    ensures ok == EncodeBody(v).Some?
    ensures ok ==> out.data == old(out.data) + EncodeBody(v).value
    ensures old(out.data) <= out.data
    decreases v, 1
  {
    hide EncodeCell, MaskUpTo, Mask;
    ghost var before := out.data;
    var n := |v.schema.fields|;
    var m := MaskSize(n);
    var maskPos := |out.data|;
    ghost var mask: bytes, written: bytes := seq(m, _ => 0), [];
    out.Append(seq(m, _ => 0));
    NoMaskYet(v);
    CompletedNothing(EncodeFields(v, 0));
    var i := 0;
    while i < n
      invariant 0 <= i <= n
      invariant MaskUpTo(mask, v, i)
      invariant out.data == before + mask + written
      invariant EncodeFields(v, 0) == Completed(written, EncodeFields(v, i))
    {
      if i < |v.slots| && v.slots[i].Some? {
        MaskStep(mask, v, i);
        PatchInPlace(before, mask, written, i);
        assert out.data[maskPos + i / 8] == mask[i / 8];
        out.data := out.data[maskPos + i / 8 := MaskWith([out.data[maskPos + i / 8]], i % 8)[0]];
        mask := MaskWith(mask, i);
        var c, t := v.slots[i].value, v.schema.fields[i].ty;
        var wrote := WriteCell(c, t, out);
        if !wrote {
          return false;
        }
        CompletedTwice(written, EncodeCell(c, t).value, EncodeFields(v, i + 1));
        written := written + EncodeCell(c, t).value;
        assert out.data == before + mask + written;
      } else {
        MaskStep(mask, v, i);
        CompletedTwice(written, [], EncodeFields(v, i + 1));
        assert written + [] == written;
      }
      i := i + 1;
    }
    MaskComplete(mask, v);
    assert before + mask + written == before + (mask + written);
    assert written + [] == written;
    ok := true;
  }

  method WriteCell(c: Cell, t: Type, out: Sink) returns (ok: bool)
    modifies out
    ensures ok == EncodeCell(c, t).Some?
    ensures ok ==> out.data == old(out.data) + EncodeCell(c, t).value
    ensures old(out.data) <= out.data
    decreases c, 0
  {
    ghost var before := out.data;
    ok := true;
    match (t, c)
    case (IntT, IntC(i)) => WriteZigzag(out, i);
    case (FloatT, FloatC(bits)) => WriteFloat(out, bits);
    case (TextT, TextC(s)) =>
      WriteUvarint(out, |s|);
      out.Append(s);
    case (BoolT, BoolC(b)) => out.Push(if b then 1 else 0);
    case (BytesT, BytesC(s)) =>
      WriteUvarint(out, |s|);
      out.Append(s);
    case (MessageT(_), MessageC(Some(v))) => ok := WriteBody(v, out);
    case (ListT(e), ListC(cs)) =>
      WriteUvarint(out, |cs|);
      ghost var written: bytes := [];
      CompletedNothing(EncodeElements(cs, 0, e));
      var k := 0;
      while k < |cs|
        invariant 0 <= k <= |cs|
        invariant out.data == before + PutUvarint(|cs|) + written
        invariant EncodeElements(cs, 0, e) == Completed(written, EncodeElements(cs, k, e))
      {
        var wrote := WriteCell(cs[k], e, out);
        if !wrote {
          return false;
        }
        CompletedTwice(written, EncodeCell(cs[k], e).value, EncodeElements(cs, k + 1, e));
        written := written + EncodeCell(cs[k], e).value;
        k := k + 1;
      }
      assert written + [] == written;
    case _ => ok := false;
  }

  // ---- decode --------------------------------------------------------------------------

  /** The elements decoded so far, completed with what the rest decodes to. */
  ghost function Resumed<T>(done: seq<T>, tail: Dec<seq<T>>): Dec<seq<T>> {
    match tail
    case Bad(e) => Bad(e)
    case Ok(rest, left) => Ok(done + rest, left)
  }

  lemma ResumedNothing<T>(tail: Dec<seq<T>>)
    ensures Resumed([], tail) == tail
  {
    if tail.Ok? {
      assert [] + tail.value == tail.value;
    }
  }

  lemma ResumedOnce<T>(done: seq<T>, x: T, tail: Dec<seq<T>>)
    ensures Resumed(done, Cons(x, tail)) == Resumed(done + [x], tail)
  {
    if tail.Ok? {
      assert done + ([x] + tail.value) == (done + [x]) + tail.value;
    }
  }

  function NoSlots(n: nat): (r: seq<Option<Cell>>)
    ensures |r| == n
  {
    seq(n, _ => None)
  }

  lemma EmptyHasNoSlots(s: Schema)
    ensures Empty(s).slots == [] + NoSlots(|s.fields|) && NoSlots(0) == []
  {
  }

  lemma NextSlot(done: seq<Option<Cell>>, n: nat, slot: Option<Cell>)
    requires n > 0
    ensures (done + NoSlots(n))[|done| := slot] == (done + [slot]) + NoSlots(n - 1)
    ensures slot.None? ==> done + NoSlots(n) == (done + [slot]) + NoSlots(n - 1)
  {
  }

  class BinaryDecoder {
    const r: BinReader
    var errs: seq<Error>
    var fatal: bool

    ghost predicate Valid()
      reads this, r
    {
      r.Valid() && |errs| == if fatal then 1 else 0
    }

    constructor (reader: BinReader)
      requires reader.Valid()
      ensures Valid() && r == reader && !fatal
    {
      r, errs, fatal := reader, [], false;
    }

    /** A step that decoded what the specification decodes, or failed as it fails: with
        that one error, after which nothing is read. */
    twostate predicate Stepped<T>(value: T, spec: Dec<T>)
      reads this, r
    {
      Valid() &&
      match spec
      case Ok(v, rest) => !fatal && value == v && r.Left() == rest
      case Bad(e) => fatal && errs == [e]
    }

    method Fail(kind: ErrorKind, path: bytes)
      requires Valid() && !fatal
      modifies this
      ensures Valid() && fatal && errs == [Error(kind, path)]
    {
      errs := errs + [Error(kind, path)];
      fatal := true;
    }

    method Body(door: Schema, base: bytes, depth: nat) returns (out: Value)
      requires Valid() && !fatal && WfSchema(door)
      modifies this, r
      ensures Stepped(out, DecodeBody(door, base, depth, old(r.Left())))
      decreases door, 1
    {
      hide DecodeFields;
      out := Empty(door);
      ghost var b := r.Left();
      if depth > MAX_DEPTH {
        Fail(MalformedBytes, base);
        return;
      }
      var n := |door.fields|;
      var m := MaskSize(n);
      var got, mask := r.Take(m);
      if !got {
        Fail(MalformedBytes, base);
        return;
      }
      assert b[..m] == mask && b[m..] == r.Left();
      if n % 8 != 0 && mask[m - 1] >= Pow2(n % 8) {
        Fail(MalformedBytes, base);
        return;
      }
      out := Fields(door, mask, base, depth);
    }

    /** The loop of Body over the declared fields. */
    method Fields(door: Schema, mask: bytes, base: bytes, depth: nat) returns (out: Value)
      requires Valid() && !fatal && WfSchema(door) && |mask| == MaskSize(|door.fields|)
      modifies this, r
      ensures Valid()
      ensures match DecodeFields(door, 0, mask, base, depth, old(r.Left()))
              case Ok(slots, rest) => !fatal && out == Value(door, slots) && r.Left() == rest
              case Bad(e) => fatal && errs == [e]
      decreases door, 0
    {
      hide DecodeCell, WfType, MaskBit, Set;
      out := Empty(door);
      var n := |door.fields|;
      ghost var spec := DecodeFields(door, 0, mask, base, depth, r.Left());
      ghost var done: seq<Option<Cell>> := [];
      ResumedNothing(spec);
      var i := 0;
      while i < n
        invariant 0 <= i <= n && Valid() && !fatal
        invariant out.schema == door && out.slots == done + NoSlots(n - i)
        invariant |done| == i
        invariant spec == Resumed(done, DecodeFields(door, i, mask, base, depth, r.Left()))
      {
        if !MaskBit(mask, i) {
          ResumedOnce(done, None, DecodeFields(door, i + 1, mask, base, depth, r.Left()));
          NextSlot(done, n - i, None);
          done := done + [None];
        } else {
          var f := door.fields[i];
          var c := Cell(f.ty, JoinField(base, f.name), depth);
          if fatal {
            return;
          }
          ResumedOnce(done, Some(c), DecodeFields(door, i + 1, mask, base, depth, r.Left()));
          NextSlot(done, n - i, Some(c));
          done := done + [Some(c)];
          SetAt(out, i, c);
          out := Set(out, f.name, c).value;
        }
        i := i + 1;
      }
      assert NoSlots(0) == [] && out.slots == done + [];
    }

    method Cell(t: Type, path: bytes, depth: nat) returns (out: Model.Cell)
      requires Valid() && !fatal && WfType(t)
      modifies this, r
      ensures Stepped(out, DecodeCell(t, path, depth, old(r.Left())))
      decreases t, 0
    {
      out := BoolC(false);
      ghost var b := r.Left();
      if depth > MAX_DEPTH {
        Fail(MalformedBytes, path);
        return;
      }
      match t
      case IntT =>
        var got, v := r.ZigzagInt();
        if !got {
          Fail(MalformedField, path);
          return;
        }
        out := IntC(v);
      case FloatT =>
        var got, bits := r.Float();
        if !got {
          Fail(MalformedField, path);
          return;
        }
        out := FloatC(bits);
      case TextT =>
        var got, s := Chunk(path);
        if !got {
          return;
        }
        var valid := CheckUtf8(s);
        ValidUtf8IsExact(s);
        if !valid {
          Fail(MalformedField, path);
          return;
        }
        out := TextC(s);
      case BoolT =>
        var got, x := r.U8();
        if !got {
          Fail(MalformedField, path);
          return;
        }
        if x > 1 {
          Fail(MalformedField, path);
          return;
        }
        out := BoolC(x != 0);
      case BytesT =>
        var got, s := Chunk(path);
        if !got {
          return;
        }
        out := BytesC(s);
      case MessageT(s) =>
        var v := Body(s, path, depth + 1);
        if fatal {
          return;
        }
        out := MessageC(Some(v));
      case ListT(e) =>
        var got, count := r.Uvarint();
        if !got {
          Fail(MalformedField, path);
          return;
        }
        if count > MAX_LIST_COUNT {
          Fail(MalformedField, path);
          return;
        }
        ghost var spec := DecodeElements(e, 0, count, path, depth, r.Left());
        var cells: seq<Model.Cell> := [];
        ResumedNothing(spec);
        var k := 0;
        while k < count
          invariant 0 <= k <= count && Valid() && !fatal
          invariant spec == Resumed(cells, DecodeElements(e, k, count, path, depth, r.Left()))
        {
          var c := Cell(e, JoinIndex(path, k), depth + 1);
          if fatal {
            return;
          }
          ResumedOnce(cells, c, DecodeElements(e, k + 1, count, path, depth, r.Left()));
          cells := cells + [c];
          k := k + 1;
        }
        assert cells + [] == cells;
        out := ListC(cells);
    }

    /** The length-prefixed run both Text and Bytes start from. */
    method Chunk(path: bytes) returns (ok: bool, s: bytes)
      requires Valid() && !fatal
      modifies this, r
      ensures Valid()
      ensures match ReadChunk(old(r.Left()))
              case Got(v, rest) => ok && !fatal && s == v && r.Left() == rest
              case Refused => !ok && fatal && errs == [Error(MalformedField, path)]
    {
      s := [];
      var got, len := r.Uvarint();
      if !got {
        Fail(MalformedField, path);
        return false, [];
      }
      if len > MAX_FIELD_BYTES || len > r.Remaining() {
        Fail(MalformedField, path);
        return false, [];
      }
      ghost var left := r.Left();
      ok, s := r.Take(len);
      assert left[..len] == s && left[len..] == r.Left();
    }
  }
}
