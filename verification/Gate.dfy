/** The single structural validator (src/gate.cpp) and what it decides. */
module Gate {
  import opened Bytes
  import opened Model

  datatype ErrorKind =
    | NoError | SchemaMismatch | UnknownSchema | MissingField | TypeMismatch
    | NullMessage | MalformedBytes | MalformedField | UnknownField

  /** A refusal: its kind and the rendered path of the offending datum. */
  datatype Error = Error(kind: ErrorKind, path: bytes)

  /** base.name, or name at top level */
  function JoinField(base: bytes, name: bytes): bytes {
    if base == [] then name else base + [0x2E] + name
  }

  /** path[k] */
  function JoinIndex(path: bytes, k: nat): bytes {
    path + [0x5B] + Decimal(k) + [0x5D]
  }

  // ---- the complete report -----------------------------------------------------

  /** Every offence of v against fields i.. of the door, in report order. */
  function FieldErrors(v: Value, door: Schema, i: nat, base: bytes): seq<Error>
    requires i <= |door.fields|
    decreases v, 1, |door.fields| - i
  {
    if i == |door.fields| then []
    else
      var f := door.fields[i];
      var path := JoinField(base, f.name);
      var slot := FieldIndex(v.schema.fields, f.name);
      var here :=
        if slot < |v.schema.fields| && slot < |v.slots| && v.slots[slot].Some? then
          CellErrors(v.slots[slot].value, f.ty, path)
        else if f.required then [Error(MissingField, path)]
        else [];
      here + FieldErrors(v, door, i + 1, base)
  }

  function CellErrors(c: Cell, t: Type, path: bytes): seq<Error>
    decreases c, 0, 0
  {
    match t
    case IntT => if c.IntC? then [] else [Error(TypeMismatch, path)]
    case FloatT => if c.FloatC? then [] else [Error(TypeMismatch, path)]
    case TextT => if c.TextC? then [] else [Error(TypeMismatch, path)]
    case BoolT => if c.BoolC? then [] else [Error(TypeMismatch, path)]
    case BytesT => if c.BytesC? then [] else [Error(TypeMismatch, path)]
    case MessageT(s) =>
      if !c.MessageC? then [Error(TypeMismatch, path)]
      else if c.msg.None? then [Error(NullMessage, path)]
      else if c.msg.value.schema.id != s.id then [Error(SchemaMismatch, path)]
      else FieldErrors(c.msg.value, s, 0, path)
    case ListT(e) =>
      if !c.ListC? then [Error(TypeMismatch, path)]
      else ElementErrors(c.cells, 0, e, path)
  }

  function ElementErrors(cs: seq<Cell>, k: nat, t: Type, path: bytes): seq<Error>
    requires k <= |cs|
    decreases cs, 0, |cs| - k
  {
    if k == |cs| then []
    else CellErrors(cs[k], t, JoinIndex(path, k)) + ElementErrors(cs, k + 1, t, path)
  }

  /** validate_into in Full mode: identity first, and nothing more if it fails. */
  function Diagnose(v: Value, door: Schema): seq<Error> {
    if v.schema.id != door.id then [Error(SchemaMismatch, [])] else FieldErrors(v, door, 0, [])
  }

  /** A report cut at its first error, unless all are collected. */
  function Cut(errs: seq<Error>, all: bool): seq<Error> {
    if all || errs == [] then errs else [errs[0]]
  }

  /** The report of a validator in mode `all` that had reported `errs` before it went
      on to find `more`: once it has stopped it finds nothing. */
  function Extend(errs: seq<Error>, more: seq<Error>, all: bool): seq<Error> {
    if !all && errs != [] then errs else errs + Cut(more, all)
  }

  lemma ExtendTwice(errs: seq<Error>, a: seq<Error>, b: seq<Error>, all: bool)
    ensures Extend(errs, a + b, all) == Extend(Extend(errs, a, all), b, all)
  {
    if a == [] {
      assert a + b == b;
    } else {
      assert (a + b)[0] == a[0];
    }
  }

  /** A stopped report takes nothing more, and nothing found is nothing reported. */
  lemma ExtendNothing(errs: seq<Error>, more: seq<Error>, all: bool)
    ensures Extend(errs, [], all) == errs
    ensures !all && errs != [] ==> Extend(errs, more, all) == errs
  {
  }

  // ---- what a conforming value is ----------------------------------------------

  /** v is an instance of the door: it claims the door's content id, every required
      field is there, and every present field has its declared type, recursively. */
  predicate Conforms(v: Value, door: Schema)
    decreases v, 1
  {
    v.schema.id == door.id &&
    forall i :: 0 <= i < |door.fields| ==> FieldConforms(v, door.fields[i])
  }

  predicate FieldConforms(v: Value, f: Field)
    decreases v, 0
  {
    var slot := FieldIndex(v.schema.fields, f.name);
    if slot < |v.schema.fields| && slot < |v.slots| && v.slots[slot].Some? then
      CellConforms(v.slots[slot].value, f.ty)
    else
      !f.required
  }

  predicate CellConforms(c: Cell, t: Type)
    decreases c, 0
  {
    match t
    case IntT => c.IntC?
    case FloatT => c.FloatC?
    case TextT => c.TextC?
    case BoolT => c.BoolC?
    case BytesT => c.BytesC?
    case MessageT(s) => c.MessageC? && c.msg.Some? && Conforms(c.msg.value, s)
    case ListT(e) => c.ListC? && forall k :: 0 <= k < |c.cells| ==> CellConforms(c.cells[k], e)
  }

  /** The full report is empty exactly for conforming values. */
  lemma DiagnoseIsExact(v: Value, door: Schema)
    ensures Diagnose(v, door) == [] <==> Conforms(v, door)
  {
    if v.schema.id == door.id {
      FieldErrorsExact(v, door, 0, []);
    }
  }

  lemma {:induction false} FieldErrorsExact(v: Value, door: Schema, i: nat, base: bytes)
    requires i <= |door.fields|
    ensures FieldErrors(v, door, i, base) == [] <==>
            forall j :: i <= j < |door.fields| ==> FieldConforms(v, door.fields[j])
    decreases v, 1, |door.fields| - i
  {
    if i < |door.fields| {
      var f := door.fields[i];
      var slot := FieldIndex(v.schema.fields, f.name);
      if slot < |v.schema.fields| && slot < |v.slots| && v.slots[slot].Some? {
        CellErrorsExact(v.slots[slot].value, f.ty, JoinField(base, f.name));
      }
      FieldErrorsExact(v, door, i + 1, base);
    }
  }

  lemma {:induction false} CellErrorsExact(c: Cell, t: Type, path: bytes)
    ensures CellErrors(c, t, path) == [] <==> CellConforms(c, t)
    decreases c, 0, 0
  {
    match t
    case MessageT(s) =>
      if c.MessageC? && c.msg.Some? {
        FieldErrorsExact(c.msg.value, s, 0, path);
      }
    case ListT(e) =>
      if c.ListC? {
        ElementErrorsExact(c.cells, 0, e, path);
      }
    case _ =>
  }

  lemma {:induction false} ElementErrorsExact(cs: seq<Cell>, k: nat, t: Type, path: bytes)
    requires k <= |cs|
    ensures ElementErrors(cs, k, t, path) == [] <==> forall j :: k <= j < |cs| ==> CellConforms(cs[j], t)
    decreases cs, 0, |cs| - k
  {
    if k < |cs| {
      CellErrorsExact(cs[k], t, JoinIndex(path, k));
      ElementErrorsExact(cs, k + 1, t, path);
    }
  }

  /** A conforming value has every required field, and what it has is of the declared type. */
  lemma FieldIsThere(v: Value, door: Schema, i: nat)
    requires Conforms(v, door) && i < |door.fields|
    ensures door.fields[i].required ==> Get(v, door.fields[i].name).Some?
    ensures Get(v, door.fields[i].name).Some? ==> CellConforms(Get(v, door.fields[i].name).value, door.fields[i].ty)
  {
    assert FieldConforms(v, door.fields[i]);
  }

  /** In a value of the door itself, field i is slot i. */
  lemma FieldIsSlot(v: Value, i: nat)
    requires DistinctNames(v.schema.fields) && |v.slots| == |v.schema.fields| && i < |v.slots|
    ensures Get(v, v.schema.fields[i].name) == v.slots[i]
    ensures FieldConforms(v, v.schema.fields[i]) <==>
            if v.slots[i].Some? then CellConforms(v.slots[i].value, v.schema.fields[i].ty) else !v.schema.fields[i].required
  {
    FieldIndexOfField(v.schema.fields, i);
  }

  // ---- the validator as it runs --------------------------------------------------

  /** Ctx: the error list under construction and the first-error latch. */
  class Ctx {
    var errs: seq<Error>
    const all: bool
    var stopped: bool

    constructor (collectAll: bool)
      ensures errs == [] && all == collectAll && !stopped
    {
      errs, all, stopped := [], collectAll, false;
    }

    ghost predicate Valid()
      reads this
    {
      stopped == (!all && errs != [])
    }

    /** The report so far was continued with `more`, up to where the mode stops. */
    twostate predicate Reported(more: seq<Error>)
      reads this
    {
      Valid() && errs == Extend(old(errs), more, all)
    }

    method Emit(e: Error)
      requires Valid() && !stopped
      modifies this
      ensures Reported([e])
    {
      errs := errs + [e];
      if !all {
        stopped := true;
      }
    }

    method ValidateValue(v: Value, door: Schema, base: bytes)
      requires Valid()
      modifies this
      ensures Reported(FieldErrors(v, door, 0, base))
      decreases v, 1
    {
      var i := 0;
      while i < |door.fields|
        invariant 0 <= i <= |door.fields| && Valid()
        invariant Extend(old(errs), FieldErrors(v, door, 0, base), all) ==
                  Extend(errs, FieldErrors(v, door, i, base), all)
      {
        if stopped {
          return;
        }
        var f := door.fields[i];
        var path := JoinField(base, f.name);
        var slot := FieldIndex(v.schema.fields, f.name);
        ghost var rest := FieldErrors(v, door, i + 1, base);
        if slot < |v.schema.fields| && slot < |v.slots| && v.slots[slot].Some? {
          ExtendTwice(errs, CellErrors(v.slots[slot].value, f.ty, path), rest, all);
          ValidateCell(v.slots[slot].value, f.ty, path);
        } else if f.required {
          ExtendTwice(errs, [Error(MissingField, path)], rest, all);
          Emit(Error(MissingField, path));
        } else {
          assert [] + rest == rest;
        }
        i := i + 1;
      }
    }

    method ValidateCell(c: Cell, t: Type, path: bytes)
      requires Valid()
      modifies this
      ensures Reported(CellErrors(c, t, path))
      decreases c, 0
    {
      if stopped {
        return;
      }
      match t
      case IntT => if !c.IntC? { Emit(Error(TypeMismatch, path)); }
      case FloatT => if !c.FloatC? { Emit(Error(TypeMismatch, path)); }
      case TextT => if !c.TextC? { Emit(Error(TypeMismatch, path)); }
      case BoolT => if !c.BoolC? { Emit(Error(TypeMismatch, path)); }
      case BytesT => if !c.BytesC? { Emit(Error(TypeMismatch, path)); }
      case MessageT(s) =>
        if !c.MessageC? {
          Emit(Error(TypeMismatch, path));
        } else if c.msg.None? {
          Emit(Error(NullMessage, path));
        } else if c.msg.value.schema.id != s.id {
          Emit(Error(SchemaMismatch, path));
        } else {
          ValidateValue(c.msg.value, s, path);
        }
      case ListT(e) =>
        if !c.ListC? {
          Emit(Error(TypeMismatch, path));
        } else {
          var k := 0;
          while k < |c.cells|
            invariant 0 <= k <= |c.cells| && Valid()
            invariant Extend(old(errs), ElementErrors(c.cells, 0, e, path), all) ==
                      Extend(errs, ElementErrors(c.cells, k, e, path), all)
          {
            if stopped {
              return;
            }
            ExtendTwice(errs, CellErrors(c.cells[k], e, JoinIndex(path, k)), ElementErrors(c.cells, k + 1, e, path), all);
            ValidateCell(c.cells[k], e, JoinIndex(path, k));
            k := k + 1;
          }
        }
    }
  }

  /** validate_into: both report modes of the one gate. */
  method ValidateInto(claimant: Value, door: Schema, collectAll: bool) returns (errs: seq<Error>)
    ensures errs == Cut(Diagnose(claimant, door), collectAll)
    ensures errs == [] <==> Conforms(claimant, door)
  {
    DiagnoseIsExact(claimant, door);
    if claimant.schema.id != door.id {
      return [Error(SchemaMismatch, [])];
    }
    var ctx := new Ctx(collectAll);
    ctx.ValidateValue(claimant, door, []);
    errs := ctx.errs;
  }

  /** First-error mode accepts what full mode accepts, and otherwise reports the
      first error of the full report and nothing else. */
  lemma ReportModesAgree(v: Value, door: Schema)
    ensures Cut(Diagnose(v, door), false) == [] <==> Cut(Diagnose(v, door), true) == []
    ensures !Conforms(v, door) ==>
              var full := Cut(Diagnose(v, door), true);
              full != [] && Cut(Diagnose(v, door), false) == [full[0]]
  {
    DiagnoseIsExact(v, door);
  }
}
