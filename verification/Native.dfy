/** The native body codec (src/serialize.cpp): what is written, what is read back,
    and why the two determine each other. */
module Native {
  import opened Bytes
  import opened Model
  import opened Utf8
  import opened Wire
  import opened Gate

  const MAX_DEPTH: nat := 64
  const MAX_LIST_COUNT: nat := 0x10_0000
  const MAX_FIELD_BYTES: nat := 0x1000_0000

  // ---- the presence bitmask ------------------------------------------------------

  /** Presence of fields at, at+1, ... as the low `width` bits of a number. */
  function PackBits(v: Value, at: nat, width: nat): (r: nat)
    ensures r < Pow2(width)
    decreases width
  {
    if width == 0 || at >= |v.schema.fields| then 0
    else (if At(v, at).Some? then 1 else 0) + 2 * PackBits(v, at + 1, width - 1)
  }

  function MaskSize(n: nat): nat { (n + 7) / 8 }

  function MaskByte(v: Value, k: nat): byte {
    assert Pow2(8) == 256 by { assert Pow2(4) == 16; }
    PackBits(v, 8 * k, 8)
  }

  function Mask(v: Value): bytes {
    seq(MaskSize(|v.schema.fields|), k requires 0 <= k => MaskByte(v, k))
  }

  predicate MaskBit(mask: bytes, i: nat)
    requires i / 8 < |mask|
  {
    Bit(mask[i / 8], i % 8)
  }

  /** Bits beyond the last field are clear. */
  predicate PaddingClear(mask: bytes, n: nat)
    requires |mask| == MaskSize(n)
  {
    n % 8 != 0 ==> mask[|mask| - 1] < Pow2(n % 8)
  }

  lemma {:induction false} PackedBit(v: Value, at: nat, width: nat, j: nat)
    ensures Bit(PackBits(v, at, width), j) ==
            (j < width && at + j < |v.schema.fields| && At(v, at + j).Some?)
    decreases width
  {
    if width == 0 || at >= |v.schema.fields| {
      ZeroBit(j);
    } else if j > 0 {
      PackedBit(v, at + 1, width - 1, j - 1);
    }
  }

  lemma {:induction false} ZeroBit(j: nat)
    ensures !Bit(0, j)
  {
    if j > 0 {
      ZeroBit(j - 1);
    }
  }

  lemma {:induction false} BitAbove(x: nat, n: nat, j: nat)
    requires x < Pow2(n) && n <= j
    ensures !Bit(x, j)
  {
    if n == 0 {
      ZeroBit(j);
    } else {
      BitAbove(x / 2, n - 1, j - 1);
    }
  }

  lemma {:induction false} PackedFits(v: Value, at: nat, width: nat)
    requires at <= |v.schema.fields| <= at + width
    ensures PackBits(v, at, width) < Pow2(|v.schema.fields| - at)
    decreases width
  {
    if width > 0 && at < |v.schema.fields| {
      PackedFits(v, at + 1, width - 1);
    }
  }

  lemma MaskSaysPresent(v: Value, i: nat)
    requires i < |v.schema.fields|
    ensures MaskBit(Mask(v), i) == At(v, i).Some?
  {
    PackedBit(v, 8 * (i / 8), 8, i % 8);
  }

  lemma MaskPaddingClear(v: Value)
    ensures PaddingClear(Mask(v), |v.schema.fields|)
  {
    var n := |v.schema.fields|;
    if n % 8 != 0 {
      var k := n / 8;
      assert MaskSize(n) - 1 == k && n - 8 * k == n % 8;
      PackedFits(v, 8 * k, 8);
      assert Mask(v)[k] == MaskByte(v, k);
    }
  }

  /** A clear-padded mask is the mask of any value present where it says. */
  lemma MaskIsCanonical(v: Value, mask: bytes)
    requires |mask| == MaskSize(|v.schema.fields|) && PaddingClear(mask, |v.schema.fields|)
    requires forall i: nat :: i < |v.schema.fields| ==> MaskBit(mask, i) == At(v, i).Some?
    ensures Mask(v) == mask
  {
    var n := |v.schema.fields|;
    forall k | 0 <= k < |mask| ensures MaskByte(v, k) == mask[k] {
      forall j: nat | j < 8 ensures Bit(MaskByte(v, k), j) == Bit(mask[k], j) {
        MaskBitsAgree(v, mask, k, j);
      }
      assert Pow2(8) == 256 by { assert Pow2(4) == 16; }
      BitsDetermine(MaskByte(v, k), mask[k], 8);
    }
  }

  lemma MaskBitsAgree(v: Value, mask: bytes, k: nat, j: nat)
    requires |mask| == MaskSize(|v.schema.fields|) && PaddingClear(mask, |v.schema.fields|)
    requires forall i: nat :: i < |v.schema.fields| ==> MaskBit(mask, i) == At(v, i).Some?
    requires k < |mask| && j < 8
    ensures Bit(MaskByte(v, k), j) == Bit(mask[k], j)
  {
    hide PackBits, Bit;
    var n, i := |v.schema.fields|, 8 * k + j;
    PackedBit(v, 8 * k, 8, j);
    if i < n {
      assert i / 8 == k && i % 8 == j;
      assert MaskBit(mask, i) == Bit(mask[k], j);
    } else {
      assert k == |mask| - 1 && n % 8 != 0 && n % 8 <= j;
      BitAbove(mask[k], n % 8, j);
    }
  }

  // ---- encode ----------------------------------------------------------------------

  /** The body of a value, or None where the encoder throws: a cell that is not of its
      declared kind, or a null message. */
  function EncodeBody(v: Value): Option<bytes>
    decreases v, 1, 0
  {
    match EncodeFields(v, 0)
    case None => None
    case Some(e) => Some(Mask(v) + e)
  }

  function EncodeFields(v: Value, i: nat): Option<bytes>
    requires i <= |v.schema.fields|
    decreases v, 0, |v.schema.fields| - i
  {
    if i == |v.schema.fields| then Some([])
    else
      var head := if i < |v.slots| && v.slots[i].Some?
                  then EncodeCell(v.slots[i].value, v.schema.fields[i].ty) else Some([]);
      match (head, EncodeFields(v, i + 1))
      case (Some(h), Some(tl)) => Some(h + tl)
      case _ => None
  }

  function EncodeCell(c: Cell, t: Type): Option<bytes>
    decreases c, 0, 0
  {
    match t
    case IntT => if c.IntC? then Some(PutUvarint(Zigzag(c.i))) else None
    case FloatT => if c.FloatC? then Some(PutFloat(c.bits)) else None
    case TextT => if c.TextC? then Some(PutUvarint(|c.text|) + c.text) else None
    case BoolT => if c.BoolC? then Some([if c.b then 1 else 0]) else None
    case BytesT => if c.BytesC? then Some(PutUvarint(|c.octets|) + c.octets) else None
    case MessageT(_) => if c.MessageC? && c.msg.Some? then EncodeBody(c.msg.value) else None
    case ListT(e) =>
      if !c.ListC? then None
      else
        match EncodeElements(c.cells, 0, e)
        case None => None
        case Some(es) => Some(PutUvarint(|c.cells|) + es)
  }

  function EncodeElements(cs: seq<Cell>, k: nat, t: Type): Option<bytes>
    requires k <= |cs|
    decreases cs, 0, |cs| - k
  {
    if k == |cs| then Some([])
    else
      match (EncodeCell(cs[k], t), EncodeElements(cs, k + 1, t))
      case (Some(h), Some(tl)) => Some(h + tl)
      case _ => None
  }

  // ---- decode ----------------------------------------------------------------------

  /** A decode step: a result and the input left, or the one fatal error. */
  datatype Dec<+T> = Ok(value: T, rest: bytes) | Bad(err: Error)

  function DecodeBody(door: Schema, base: bytes, depth: nat, b: bytes): Dec<Value>
    decreases door, 1, 0
  {
    var n := |door.fields|;
    var m := MaskSize(n);
    if depth > MAX_DEPTH || |b| < m then Bad(Error(MalformedBytes, base))
    else if !PaddingClear(b[..m], n) then Bad(Error(MalformedBytes, base))
    else
      match DecodeFields(door, 0, b[..m], base, depth, b[m..])
      case Bad(e) => Bad(e)
      case Ok(slots, rest) => Ok(Value(door, slots), rest)
  }

  /** Slots i, i+1, ... of a body under the door. */
  function DecodeFields(door: Schema, i: nat, mask: bytes, base: bytes, depth: nat, b: bytes)
    : (r: Dec<seq<Option<Cell>>>)
    requires i <= |door.fields| && |mask| == MaskSize(|door.fields|)
    ensures r.Ok? ==> |r.value| == |door.fields| - i
    decreases door, 0, |door.fields| - i
  {
    if i == |door.fields| then Ok([], b)
    else if !MaskBit(mask, i) then Absent(DecodeFields(door, i + 1, mask, base, depth, b))
    else
      match DecodeCell(door.fields[i].ty, JoinField(base, door.fields[i].name), depth, b)
      case Bad(e) => Bad(e)
      case Ok(c, left) => Cons(Some(c), DecodeFields(door, i + 1, mask, base, depth, left))
  }

  function Absent(tail: Dec<seq<Option<Cell>>>): Dec<seq<Option<Cell>>> { Cons(None, tail) }

  function Cons<T>(head: T, tail: Dec<seq<T>>): Dec<seq<T>> {
    match tail
    case Bad(e) => Bad(e)
    case Ok(rest, left) => Ok([head] + rest, left)
  }

  function DecodeCell(t: Type, path: bytes, depth: nat, b: bytes): Dec<Cell>
    decreases t, 0, 0
  {
    if depth > MAX_DEPTH then Bad(Error(MalformedBytes, path))
    else
      var bad := Bad(Error(MalformedField, path));
      match t
      case IntT => (match ReadZigzag(b)
                    case Got(v, rest) => Ok(IntC(v), rest)
                    case Refused => bad)
      case FloatT => (match ReadFloat(b)
                      case Got(v, rest) => Ok(FloatC(v), rest)
                      case Refused => bad)
      case TextT => (match ReadChunk(b)
                     case Got(s, rest) => if ValidUtf8(s) then Ok(TextC(s), rest) else bad
                     case Refused => bad)
      case BoolT => if b == [] || b[0] > 1 then bad else Ok(BoolC(b[0] != 0), b[1..])
      case BytesT => (match ReadChunk(b)
                      case Got(s, rest) => Ok(BytesC(s), rest)
                      case Refused => bad)
      case MessageT(s) => (match DecodeBody(s, path, depth + 1, b)
                           case Ok(v, rest) => Ok(MessageC(Some(v)), rest)
                           case Bad(e) => Bad(e))
      case ListT(e) => (match ReadUvarint(b, 0)
                        case Got(n, left) =>
                          if n > MAX_LIST_COUNT then bad
                          else (match DecodeElements(e, 0, n, path, depth, left)
                                case Ok(cs, rest) => Ok(ListC(cs), rest)
                                case Bad(err) => Bad(err))
                        case Refused => bad)
  }

  /** Elements k, ..., n-1 of a list. */
  function DecodeElements(t: Type, k: nat, n: nat, path: bytes, depth: nat, b: bytes): (r: Dec<seq<Cell>>)
    requires k <= n
    ensures r.Ok? ==> |r.value| == n - k
    decreases t, 1, n - k
  {
    if k == n then Ok([], b)
    else
      match DecodeCell(t, JoinIndex(path, k), depth + 1, b)
      case Bad(e) => Bad(e)
      case Ok(c, left) => Cons(c, DecodeElements(t, k + 1, n, path, depth, left))
  }

  /** A length-prefixed run of octets, bounded by the cap and by the input. */
  function ReadChunk(b: bytes): Read<bytes> {
    match ReadUvarint(b, 0)
    case Refused => Refused
    case Got(n, rest) => if n > MAX_FIELD_BYTES || n > |rest| then Refused else Got(rest[..n], rest[n..])
  }

  // ---- the values the codec is for ----------------------------------------------------

  /** v is an instance of exactly this schema: every present slot holds its declared kind
      and nested values claim exactly the declared schema, at every depth. */
  predicate Instance(v: Value, s: Schema)
    decreases v, 1
  {
    && v.schema == s
    && |v.slots| == |s.fields|
    && forall i :: 0 <= i < |s.fields| && v.slots[i].Some? ==> CellInstance(v.slots[i].value, s.fields[i].ty)
  }

  predicate CellInstance(c: Cell, t: Type)
    decreases c, 0
  {
    match t
    case IntT => c.IntC?
    case FloatT => c.FloatC?
    case TextT => c.TextC?
    case BoolT => c.BoolC?
    case BytesT => c.BytesC?
    case MessageT(s) => c.MessageC? && c.msg.Some? && Instance(c.msg.value, s)
    case ListT(e) => c.ListC? && forall k :: 0 <= k < |c.cells| ==> CellInstance(c.cells[k], e)
  }

  /** What the decoder demands and the encoder does not check: nesting, list counts,
      field sizes, and UTF-8. */
  predicate WithinCaps(v: Value, depth: nat)
    decreases v, 1
  {
    depth <= MAX_DEPTH &&
    forall i :: 0 <= i < |v.slots| && v.slots[i].Some? ==> CellWithinCaps(v.slots[i].value, depth)
  }

  predicate CellWithinCaps(c: Cell, depth: nat)
    decreases c, 0
  {
    depth <= MAX_DEPTH &&
    match c
    case TextC(s) => |s| <= MAX_FIELD_BYTES && ValidUtf8(s)
    case BytesC(s) => |s| <= MAX_FIELD_BYTES
    case MessageC(m) => m.Some? ==> WithinCaps(m.value, depth + 1)
    case ListC(cs) => |cs| <= MAX_LIST_COUNT && forall k :: 0 <= k < |cs| ==> CellWithinCaps(cs[k], depth + 1)
    case _ => true
  }

  /** v with every NaN replaced by the canonical one. */
  function Norm(v: Value): Value
    decreases v, 1
  {
    Value(v.schema, seq(|v.slots|, i requires 0 <= i < |v.slots| =>
      if v.slots[i].Some? then Some(NormCell(v.slots[i].value)) else None))
  }

  function NormCell(c: Cell): Cell
    decreases c, 0
  {
    match c
    case FloatC(bits) => FloatC(NormFloat(bits))
    case MessageC(m) => if m.Some? then MessageC(Some(Norm(m.value))) else c
    case ListC(cs) => ListC(seq(|cs|, k requires 0 <= k < |cs| => NormCell(cs[k])))
    case _ => c
  }

  // ---- decoded candidates are instances -------------------------------------------------

  lemma {:induction false} DecodedIsInstance(door: Schema, base: bytes, depth: nat, b: bytes)
    requires DecodeBody(door, base, depth, b).Ok?
    ensures Instance(DecodeBody(door, base, depth, b).value, door)
    decreases door, 1, 0
  {
    var m := MaskSize(|door.fields|);
    DecodedSlots(door, 0, b[..m], base, depth, b[m..]);
  }

  lemma {:induction false} DecodedSlots(door: Schema, i: nat, mask: bytes, base: bytes, depth: nat, b: bytes)
    requires i <= |door.fields| && |mask| == MaskSize(|door.fields|)
    requires DecodeFields(door, i, mask, base, depth, b).Ok?
    ensures var ss := DecodeFields(door, i, mask, base, depth, b).value;
            forall j :: 0 <= j < |ss| ==>
              && ss[j].Some? == MaskBit(mask, i + j)
              && (ss[j].Some? ==> CellInstance(ss[j].value, door.fields[i + j].ty))
    decreases door, 0, |door.fields| - i
  {
    hide DecodeCell, CellInstance, MaskBit;
    if i < |door.fields| {
      if MaskBit(mask, i) {
        var path := JoinField(base, door.fields[i].name);
        DecodedCell(door.fields[i].ty, path, depth, b);
        DecodedSlots(door, i + 1, mask, base, depth, DecodeCell(door.fields[i].ty, path, depth, b).rest);
      } else {
        DecodedSlots(door, i + 1, mask, base, depth, b);
      }
    }
  }

  lemma {:induction false} DecodedCell(t: Type, path: bytes, depth: nat, b: bytes)
    requires DecodeCell(t, path, depth, b).Ok?
    ensures CellInstance(DecodeCell(t, path, depth, b).value, t)
    decreases t, 0, 0
  {
    match t
    case MessageT(s) => DecodedIsInstance(s, path, depth + 1, b);
    case ListT(e) =>
      var r := ReadUvarint(b, 0);
      DecodedElements(e, 0, r.value, path, depth, r.rest);
    case _ =>
  }

  lemma {:induction false} DecodedElements(t: Type, k: nat, n: nat, path: bytes, depth: nat, b: bytes)
    requires k <= n && DecodeElements(t, k, n, path, depth, b).Ok?
    ensures var cs := DecodeElements(t, k, n, path, depth, b).value;
            forall j :: 0 <= j < n - k ==> CellInstance(cs[j], t)
    decreases t, 1, n - k
  {
    if k < n {
      DecodedCell(t, JoinIndex(path, k), depth + 1, b);
      DecodedElements(t, k + 1, n, path, depth, DecodeCell(t, JoinIndex(path, k), depth + 1, b).rest);
    }
  }
}
