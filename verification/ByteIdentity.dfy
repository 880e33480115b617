/** The native path end to end: byte identity is value identity (DESIGN.md, Canonicality). */
module ByteIdentity {
  import opened Bytes
  import opened Model
  import opened Utf8
  import opened Wire
  import opened Gate
  import opened Native
  import opened Canonical
  import opened Alike
  import opened Compat
  import opened Admission

  // ---- the header --------------------------------------------------------------------------

  lemma ParseOfClaim(name: bytes, version: u32, id: u64, body: bytes)
    ensures ParseClaim(name, PutLE(version, 4) + (PutLE(id, 8) + body)) == NativeClaim(name, version, id, body)
  {
    Widths();
    ReadPutLE(version, 4, PutLE(id, 8) + body);
    ReadPutLE(id, 8, body);
  }

  /** Parsing a header returns its claim exactly when the name is UTF-8. */
  lemma ParseOfHeader(name: bytes, version: u32, id: u64, body: bytes)
    requires |name| <= 0xFFFF
    ensures Parse(Header(name, version, id, body)) ==
            if ValidUtf8(name) then NativeClaim(name, version, id, body) else Malformed
  {
    hide ReadLE, PutLE, ParseClaim;
    var tail := PutLE(version, 4) + (PutLE(id, 8) + body);
    var b := Header(name, version, id, body);
    assert b[..3] == MAGIC && b[3..] == PutLE(|name|, 2) + (name + tail);
    Widths();
    ReadPutLE(|name|, 2, name + tail);
    assert (name + tail)[..|name|] == name && (name + tail)[|name|..] == tail;
    ParseOfClaim(name, version, id, body);
  }

  lemma ClaimIsWritten(name: bytes, b: bytes)
    requires ParseClaim(name, b).NativeClaim?
    ensures var u := ParseClaim(name, b); u.name == name && b == PutLE(u.version, 4) + (PutLE(u.id, 8) + u.body)
  {
    ReadLEIsPut(b, 4);
    ReadLEIsPut(ReadLE(b, 4).rest, 8);
  }

  /** Everything that parses is the header of its claim, with a UTF-8 name. */
  lemma ParsedIsHeader(b: bytes)
    requires Parse(b).NativeClaim?
    ensures var u := Parse(b);
            |u.name| <= 0xFFFF && ValidUtf8(u.name) && b == Header(u.name, u.version, u.id, u.body)
  {
    hide ReadLE, ParseClaim, ValidUtf8, PutLE, Pow256;
    ReadLEIsPut(b[3..], 2);
    Widths();
    var n, b1 := ReadLE(b[3..], 2).value, ReadLE(b[3..], 2).rest;
    var name, tail := b1[..n], b1[n..];
    ClaimIsWritten(name, tail);
    assert b1 == name + tail;
    assert b == b[..3] + b[3..];
  }

  /** The native parser never makes a JSON claim. */
  lemma ParsedIsNative(b: bytes)
    ensures !Parse(b).JsonClaim?
  {
    hide ReadLE, ValidUtf8;
  }

  // ---- canonical acceptance --------------------------------------------------------------------

  /** Every accepted byte string is the one encoding of the value it was accepted as:
      header and body, through all nesting, in either report mode. */
  lemma CanonicalAcceptance(b: bytes, door: Schema, all: bool, ft: FloatText)
    requires Admit(Parse(b), door, all, ft).Accepted?
    ensures Serialize(Admit(Parse(b), door, all, ft).value) == Some(b)
  {
    hide DecodeBody, EncodeBody, ValidUtf8, ReadLE, PutLE;
    var u := Parse(b);
    ParsedIsNative(b);
    ParsedIsHeader(b);
    var r := DecodeBody(door, [], 0, u.body);
    DecodedIsInstance(door, [], 0, u.body);
    DecodedBodyIsEncoding(door, [], 0, u.body);
    assert EncodeBody(r.value).value + [] == EncodeBody(r.value).value;
  }

  /** Two byte strings accepted as the same value are the same bytes. */
  lemma AcceptedValuesDetermineBytes(b: bytes, c: bytes, door: Schema, all: bool, ft: FloatText)
    requires Admit(Parse(b), door, all, ft).Accepted? && Admit(Parse(c), door, all, ft).Accepted?
    requires Admit(Parse(b), door, all, ft).value == Admit(Parse(c), door, all, ft).value
    ensures b == c
  {
    CanonicalAcceptance(b, door, all, ft);
    CanonicalAcceptance(c, door, all, ft);
  }

  // ---- what the decoder leaves to the gate --------------------------------------------------------

  predicate OnlyMissing(errs: seq<Error>) {
    forall i :: 0 <= i < |errs| ==> errs[i].kind == MissingField
  }

  /** A decoded candidate can only miss required fields, at any depth: the gate reports
      nothing else of it. */
  lemma DecodedOnlyMissesFields(door: Schema, body: bytes)
    requires WfSchema(door) && DecodeBody(door, [], 0, body).Ok?
    ensures OnlyMissing(Diagnose(DecodeBody(door, [], 0, body).value, door))
  {
    DecodedIsInstance(door, [], 0, body);
    InstanceMisses(DecodeBody(door, [], 0, body).value, door, 0, []);
  }

  lemma {:induction false} InstanceMisses(v: Value, s: Schema, i: nat, base: bytes)
    requires WfSchema(s) && Instance(v, s) && i <= |s.fields|
    ensures OnlyMissing(FieldErrors(v, s, i, base))
    decreases v, 1, |s.fields| - i
  {
    hide CellErrors, CellInstance, WfType;
    if i < |s.fields| {
      FieldIndexOfField(s.fields, i);
      InstanceMisses(v, s, i + 1, base);
      if v.slots[i].Some? {
        CellMisses(v.slots[i].value, s.fields[i].ty, JoinField(base, s.fields[i].name));
      }
    }
  }

  lemma {:induction false} CellMisses(c: Cell, t: Type, path: bytes)
    requires WfType(t) && CellInstance(c, t)
    ensures OnlyMissing(CellErrors(c, t, path))
    decreases c, 0, 0
  {
    hide FieldErrors, ElementErrors;
    match t
    case MessageT(s) => InstanceMisses(c.msg.value, s, 0, path);
    case ListT(e) =>
      assert ElementInstances(c.cells, e);
      ElementsMiss(c.cells, 0, e, path);
    case _ =>
  }

  lemma {:induction false} ElementsMiss(cs: seq<Cell>, k: nat, t: Type, path: bytes)
    requires WfType(t) && ElementInstances(cs, t) && k <= |cs|
    ensures OnlyMissing(ElementErrors(cs, k, t, path))
    decreases cs, 1, |cs| - k
  {
    hide CellErrors, CellInstance;
    if k < |cs| {
      CellMisses(cs[k], t, JoinIndex(path, k));
      ElementsMiss(cs, k + 1, t, path);
    }
  }

  // ---- the round trip ----------------------------------------------------------------------------

  /** Normalising NaNs does not change conformance. */
  lemma {:induction false} NormConforms(v: Value, door: Schema)
    ensures Conforms(Norm(v), door) == Conforms(v, door)
    decreases v, 1
  {
    hide CellConforms, NormCell;
    forall i | 0 <= i < |door.fields| ensures FieldConforms(Norm(v), door.fields[i]) == FieldConforms(v, door.fields[i]) {
      var slot := FieldIndex(v.schema.fields, door.fields[i].name);
      if slot < |v.slots| && v.slots[slot].Some? {
        NormCellConforms(v.slots[slot].value, door.fields[i].ty);
      }
    }
  }

  lemma {:induction false} NormCellConforms(c: Cell, t: Type)
    ensures CellConforms(NormCell(c), t) == CellConforms(c, t)
    decreases c, 0
  {
    hide Conforms, Norm;
    match c
    case MessageC(m) =>
      if m.Some? && t.MessageT? {
        NormConforms(m.value, t.schema);
      }
    case ListC(cs) =>
      if t.ListT? {
        var ns := NormCells(cs);
        assert NormCell(c) == ListC(ns);
        forall k | 0 <= k < |cs| ensures CellConforms(ns[k], t.elem) == CellConforms(cs[k], t.elem) {
          NormCellConforms(cs[k], t.elem);
        }
      }
    case _ =>
  }

  /** Serialising a conforming value and admitting the bytes returns it, every NaN made the quiet
      one and nothing else changed, exactly when: its nested values claim the very schemas the door declares (the gate
      compares only their content ids), it is within the decoder's caps, and the schema
      name is UTF-8 of at most 65535 octets (which is when serialize does not throw). An
      instance outside that is refused. */
  lemma RoundTrip(v: Value, door: Schema, all: bool, ft: FloatText)
    requires Conforms(v, door) && Serialize(v).Some?
    ensures var a := Admit(Parse(Serialize(v).value), door, all, ft);
            && (a == Accepted(Norm(v)) <==> Instance(v, door) && WithinCaps(v, 0) && ValidUtf8(door.name))
            && (a.Accepted? && SameValue(v, a.value) <==> Instance(v, door) && WithinCaps(v, 0) && ValidUtf8(door.name))
    ensures Instance(v, door) && !(WithinCaps(v, 0) && ValidUtf8(door.name)) ==>
              Admit(Parse(Serialize(v).value), door, all, ft).Rejected?
  {
    hide DecodeBody, EncodeBody, Conforms, WithinCaps, ValidUtf8, ReadLE, PutLE, ParseClaim, SameValue, Norm;
    var s, body := v.schema, EncodeBody(v).value;
    var a := Admit(Parse(Serialize(v).value), door, all, ft);
    ParseOfHeader(s.name, s.version, s.id, body);
    if a.Accepted? {
      ReturnsNormal(v, door, a.value, body);
    }
    if Instance(v, door) && WithinCaps(v, 0) && ValidUtf8(door.name) {
      DecodeOfBody(v, door, [], 0, []);
      assert body + [] == body;
      NormConforms(v, door);
      DiagnoseIsExact(Norm(v), door);
    } else if Instance(v, door) {
      DecodeOfBody(v, door, [], 0, []);
      assert body + [] == body;
    }
  }

  /** A value decoded from the body of v is v up to NaNs exactly when it is v normalised, and then
      v is an instance within the caps. */
  lemma ReturnsNormal(v: Value, door: Schema, w: Value, body: bytes)
    requires EncodeBody(v) == Some(body)
    requires DecodeBody(door, [], 0, body) == Ok(w, [])
    ensures SameValue(v, w) <==> w == Norm(v)
    ensures w == Norm(v) ==> Instance(v, door) && WithinCaps(v, 0)
  {
    hide DecodeBody, EncodeBody, WithinCaps, SameValue, Norm, Instance;
    DecodedIsInstance(door, [], 0, body);
    DecodedIsNormal(door, body);
    SameIsNorm(v, w);
    if w == Norm(v) {
      NormKeepsInstance(v, door);
      DecodeOfBody(v, door, [], 0, []);
      assert body + [] == body;
    }
  }

  /** Two instances within the caps have the same bytes exactly when they differ at most in their
      NaNs; so, NaNs aside, bytes determine the value. */
  lemma BytesDetermineValue(v: Value, w: Value, s: Schema)
    requires Instance(v, s) && Instance(w, s) && WithinCaps(v, 0) && WithinCaps(w, 0)
    requires Serialize(v).Some?
    ensures Serialize(v) == Serialize(w) <==> SameValue(v, w)
    ensures Serialize(v) == Serialize(w) && OnlyNumbers(v) ==> v == w
  {
    hide DecodeBody, EncodeBody, WithinCaps, SameValue, OnlyNumbers, Norm, CellInstance, Header;
    DecodeOfBody(v, s, [], 0, []);
    DecodeOfBody(w, s, [], 0, []);
    var x, y := EncodeBody(v).value, EncodeBody(w).value;
    assert x + [] == x && y + [] == y;
    SameHeader(s.name, s.version, s.id, x, y);
    SameIsNorm(v, w);
    NormEncodesTheSame(v, s);
    NormEncodesTheSame(w, s);
    if SameValue(v, w) && OnlyNumbers(v) {
      SameNumbersAreEqual(v, w);
    }
  }

  lemma SameHeader(name: bytes, version: u32, id: u64, x: bytes, y: bytes)
    ensures Header(name, version, id, x) == Header(name, version, id, y) <==> x == y
  {
    hide PutLE;
    var front := MAGIC + (PutLE(|name|, 2) + (name + (PutLE(version, 4) + PutLE(id, 8))));
    assert Header(name, version, id, x) == front + x && Header(name, version, id, y) == front + y;
    assert (front + x)[|front|..] == x && (front + y)[|front|..] == y;
  }

  lemma {:induction false} NormKeepsInstance(v: Value, s: Schema)
    ensures Instance(Norm(v), s) == Instance(v, s)
    decreases v, 1
  {
    hide CellInstance, NormCell;
    if v.schema == s && |v.slots| == |s.fields| {
      forall i | 0 <= i < |s.fields| && v.slots[i].Some?
        ensures CellInstance(NormCell(v.slots[i].value), s.fields[i].ty) == CellInstance(v.slots[i].value, s.fields[i].ty)
      {
        NormCellInstance(v.slots[i].value, s.fields[i].ty);
      }
    }
  }

  lemma {:induction false} NormCellInstance(c: Cell, t: Type)
    ensures CellInstance(NormCell(c), t) == CellInstance(c, t)
    decreases c, 0
  {
    hide Instance, Norm;
    match c
    case MessageC(m) =>
      if m.Some? && t.MessageT? {
        NormKeepsInstance(m.value, t.schema);
      }
    case ListC(cs) =>
      if t.ListT? {
        var ns := NormCells(cs);
        assert NormCell(c) == ListC(ns);
        forall k | 0 <= k < |cs| ensures CellInstance(ns[k], t.elem) == CellInstance(cs[k], t.elem) {
          NormCellInstance(cs[k], t.elem);
        }
      }
    case _ =>
  }

  // ---- when ids are faithful, conformance is enough ------------------------------------------------

  /** Every nested claim that carries a declared content id is the declared schema, and
      every value has one slot per field (what Value's constructor guarantees). */
  predicate IdsFaithful(v: Value, s: Schema)
    decreases v, 1
  {
    && (v.schema.id == s.id ==> v.schema == s)
    && |v.slots| == |v.schema.fields|
    && (|v.slots| == |s.fields| ==>
          forall i :: 0 <= i < |v.slots| && v.slots[i].Some? ==> CellIdsFaithful(v.slots[i].value, s.fields[i].ty))
  }

  predicate CellIdsFaithful(c: Cell, t: Type)
    decreases c, 0
  {
    match c
    case MessageC(m) => m.Some? && t.MessageT? ==> IdsFaithful(m.value, t.schema)
    case ListC(cs) => t.ListT? ==> forall k :: 0 <= k < |cs| ==> CellIdsFaithful(cs[k], t.elem)
    case _ => true
  }

  lemma {:induction false} ConformingIsInstance(v: Value, s: Schema)
    requires WfSchema(s) && Conforms(v, s) && IdsFaithful(v, s)
    ensures Instance(v, s)
    decreases v, 1
  {
    hide CellConforms, CellIdsFaithful, CellInstance, WfType;
    forall i | 0 <= i < |s.fields| && v.slots[i].Some? ensures CellInstance(v.slots[i].value, s.fields[i].ty) {
      FieldIndexOfField(s.fields, i);
      assert FieldConforms(v, s.fields[i]);
      ConformingCellIsInstance(v.slots[i].value, s.fields[i].ty);
    }
  }

  lemma {:induction false} ConformingCellIsInstance(c: Cell, t: Type)
    requires WfType(t) && CellConforms(c, t) && CellIdsFaithful(c, t)
    ensures CellInstance(c, t)
    decreases c, 0
  {
    hide Conforms, IdsFaithful, Instance, WfSchema;
    match t
    case MessageT(s) => ConformingIsInstance(c.msg.value, s);
    case ListT(e) =>
      forall k | 0 <= k < |c.cells| ensures CellInstance(c.cells[k], e) {
        ConformingCellIsInstance(c.cells[k], e);
      }
    case _ =>
  }

  // ---- the work a decode can do --------------------------------------------------------------------

  /** Cells materialised, at every depth. */
  function Cells(v: Value): nat
    decreases v, 1, 0
  {
    SlotCells(v, 0)
  }

  function SlotCells(v: Value, i: nat): nat
    requires i <= |v.slots|
    decreases v, 0, |v.slots| - i
  {
    if i == |v.slots| then 0
    else (if v.slots[i].Some? then CellCells(v.slots[i].value) else 0) + SlotCells(v, i + 1)
  }

  function CellCells(c: Cell): nat
    decreases c, 0, 0
  {
    1 + match c
        case MessageC(m) => if m.Some? then Cells(m.value) else 0
        case ListC(cs) => ElementCells(cs, 0)
        case _ => 0
  }

  function ElementCells(cs: seq<Cell>, k: nat): nat
    requires k <= |cs|
    decreases cs, 0, |cs| - k
  {
    if k == |cs| then 0 else CellCells(cs[k]) + ElementCells(cs, k + 1)
  }

  /** A decode materialises at most 2^20 cells for each octet it consumes, although
      elements of a list may consume none. */
  lemma DecodeWorkIsBounded(door: Schema, body: bytes)
    requires DecodeBody(door, [], 0, body).Ok?
    ensures var r := DecodeBody(door, [], 0, body);
            |r.rest| <= |body| && Cells(r.value) <= MAX_LIST_COUNT * (|body| - |r.rest|)
  {
    DecodedIsInstance(door, [], 0, body);
    DecodedIsNormal(door, body);
    DecodedBodyIsEncoding(door, [], 0, body);
    EncodedCells(DecodeBody(door, [], 0, body).value, door, 0);
  }

  lemma {:induction false} EncodedCells(v: Value, s: Schema, depth: nat)
    requires Instance(v, s) && WithinCaps(v, depth) && EncodeBody(v).Some?
    ensures Cells(v) <= MAX_LIST_COUNT * |EncodeBody(v).value|
    decreases v, 2, 0
  {
    EncodedSlotCells(v, s, depth, 0);
  }

  lemma {:induction false} EncodedSlotCells(v: Value, s: Schema, depth: nat, i: nat)
    requires Instance(v, s) && WithinCaps(v, depth) && i <= |v.slots| && EncodeFields(v, i).Some?
    ensures SlotCells(v, i) <= (|v.slots| - i) + MAX_LIST_COUNT * |EncodeFields(v, i).value|
    decreases v, 1, |v.slots| - i
  {
    hide CellCells, EncodeCell, CellWithinCaps, CellInstance;
    if i < |v.slots| {
      EncodedSlotCells(v, s, depth, i + 1);
      if v.slots[i].Some? {
        EncodedCellCells(v.slots[i].value, s.fields[i].ty, depth);
      }
    }
  }

  lemma {:induction false} EncodedCellCells(c: Cell, t: Type, depth: nat)
    requires CellInstance(c, t) && CellWithinCaps(c, depth) && EncodeCell(c, t).Some?
    ensures CellCells(c) <= 1 + MAX_LIST_COUNT * |EncodeCell(c, t).value|
    decreases c, 0, 0
  {
    hide Cells, ElementCells, EncodeBody, EncodeElements;
    match t
    case MessageT(s) => EncodedCells(c.msg.value, s, depth + 1);
    case ListT(e) =>
      assert ElementInstances(c.cells, e) && ElementsWithinCaps(c.cells, 0, depth + 1);
      EncodedElementCells(c.cells, e, depth + 1, 0);
    case _ =>
  }

  lemma {:induction false} EncodedElementCells(cs: seq<Cell>, t: Type, depth: nat, k: nat)
    requires ElementInstances(cs, t) && ElementsWithinCaps(cs, 0, depth) && k <= |cs| && EncodeElements(cs, k, t).Some?
    ensures ElementCells(cs, k) <= (|cs| - k) + MAX_LIST_COUNT * |EncodeElements(cs, k, t).value|
    decreases cs, 1, |cs| - k
  {
    hide CellCells, EncodeCell, CellWithinCaps, CellInstance;
    if k < |cs| {
      EncodedElementCells(cs, t, depth, k + 1);
      EncodedCellCells(cs[k], t, depth);
    }
  }
}
